/** Blend lending positions (src/soroban.rs, src/logic.rs): each event moves one
    position's clamped running totals, read back from an append-only log, and an
    upward risk-band crossing raises an alert. */
module LendingPositions {
  import opened Wrappers
  import opened AlertRules

  /** The protocol is always "blend". */
  datatype PositionKey = PositionKey(pool: string, account: string)

  datatype Position = Position(
    collateralAsset: string, collateral: real, debtAsset: string, debt: real,
    ltv: Option<real>, healthFactor: Option<real>)

  datatype EventKind = SupplyCollateral | WithdrawCollateral | Borrow | Repay

  datatype Event = Event(key: PositionKey, time: int, kind: EventKind, reserve: string, amount: real)

  type Prices = map<string, real>

  function Max(a: real, b: real): real { if a < b then b else a }

  function PriceOf(prices: Prices, asset: string): Option<real> {
    if asset in prices then Some(prices[asset]) else None
  }

  /** LTV in percent and the coverage ratio, where they are defined. */
  function LendingRisk(collateral: real, collateralPrice: Option<real>, debt: real, debtPrice: Option<real>)
    : (Option<real>, Option<real>)
  {
    if collateralPrice.None? || debtPrice.None? then (None, None)
    else UsdRisk(Usd(collateral, collateralPrice.value), Usd(debt, debtPrice.value))
  }

  function Usd(amount: real, price: real): real { amount * price }

  function UsdRisk(collateralUsd: real, debtUsd: real): (Option<real>, Option<real>) {
    if collateralUsd == 0.0 then (None, None)
    else (Some((debtUsd / collateralUsd) * 100.0), if debtUsd == 0.0 then None else Some(collateralUsd / debtUsd))
  }

  /** What an account without a record starts from. */
  const UNTOUCHED := Position("", 0.0, "", 0.0, None, None)

  function OrUntouched(latest: Option<Position>): Position {
    if latest.Some? then latest.value else UNTOUCHED
  }

  /** The position an event leaves behind, given the latest one on record. */
  function Apply(prices: Prices, latest: Option<Position>, e: Event): Position {
    var before := OrUntouched(latest);
    var moved :=
      match e.kind
      case SupplyCollateral => before.(collateralAsset := e.reserve, collateral := before.collateral + e.amount)
      case WithdrawCollateral => before.(collateral := Max(before.collateral - e.amount, 0.0))
      case Borrow => before.(debtAsset := e.reserve, debt := before.debt + e.amount)
      case Repay => before.(debt := Max(before.debt - e.amount, 0.0));
    Assess(prices, moved)
  }

  function Assess(prices: Prices, p: Position): Position {
    var (ltv, healthFactor) :=
      LendingRisk(p.collateral, PriceOf(prices, p.collateralAsset), p.debt, PriceOf(prices, p.debtAsset));
    p.(ltv := ltv, healthFactor := healthFactor)
  }

  /** Where both exist, LTV and health factor are reciprocal percentages. */
  lemma LtvTimesHealth(collateral: real, collateralPrice: Option<real>, debt: real, debtPrice: Option<real>)
    ensures var (ltv, health) := LendingRisk(collateral, collateralPrice, debt, debtPrice);
            ltv.Some? && health.Some? ==> ltv.value * health.value == 100.0
  {
    if collateralPrice.Some? && debtPrice.Some? {
      var c, d := Usd(collateral, collateralPrice.value), Usd(debt, debtPrice.value);
      if c != 0.0 && d != 0.0 {
        assert (d / c) * (c / d) == 1.0;
      }
    }
  }

  // ---- one position's own stream ----

  /** The position after a stream of its events. */
  function Fold(prices: Prices, es: seq<Event>): Option<Position> {
    if es == [] then None else Some(Apply(prices, Fold(prices, es[..|es| - 1]), es[|es| - 1]))
  }

  /** Collateral and debt are two copies of the same clamped counter. */
  datatype Side = CollateralSide | DebtSide {
    function Raising(): EventKind { if this == CollateralSide then SupplyCollateral else Borrow }

    function Lowering(): EventKind { if this == CollateralSide then WithdrawCollateral else Repay }

    function Held(p: Option<Position>): real {
      if p.None? then 0.0 else if this == CollateralSide then p.value.collateral else p.value.debt
    }

    /** The event's signed amount on this side. */
    function Delta(e: Event): real {
      if e.kind == Raising() then e.amount else if e.kind == Lowering() then -e.amount else 0.0
    }
  }

  /** The unclamped running total. */
  function Net(side: Side, es: seq<Event>): real {
    if es == [] then 0.0 else Net(side, es[..|es| - 1]) + side.Delta(es[|es| - 1])
  }

  /** The least unclamped total at the start or just after a lowering event. */
  function Lowest(side: Side, es: seq<Event>): real {
    if es == [] then 0.0
    else
      var lowest := Lowest(side, es[..|es| - 1]);
      if es[|es| - 1].kind == side.Lowering() && Net(side, es) < lowest then Net(side, es) else lowest
  }

  lemma ApplyHeld(prices: Prices, side: Side, p: Option<Position>, e: Event)
    ensures side.Held(Some(Apply(prices, p, e)))
            == if e.kind == side.Lowering() then Max(side.Held(p) - e.amount, 0.0) else side.Held(p) + side.Delta(e)
  {
    hide LendingRisk;
  }

  /** What the clamps do over a whole stream, for amounts of any sign: the amount
      held is the net total above its lowest point. */
  lemma {:induction false} HeldIsNetAboveLowest(prices: Prices, side: Side, es: seq<Event>)
    ensures side.Held(Fold(prices, es)) == Net(side, es) - Lowest(side, es)
  {
    hide Apply;
    if es != [] {
      var front, last := es[..|es| - 1], es[|es| - 1];
      HeldIsNetAboveLowest(prices, side, front);
      ApplyHeld(prices, side, Fold(prices, front), last);
    }
  }

  ghost predicate NonNegative(es: seq<Event>) {
    forall e :: e in es ==> e.amount >= 0.0
  }

  /** For the amounts the protocol emits, that lowest point is the minimum over
      every prefix of the stream. */
  lemma LowestIsMinimum(side: Side, es: seq<Event>) returns (low: nat)
    requires NonNegative(es)
    ensures low <= |es| && Lowest(side, es) == Net(side, es[..low])
    ensures forall k :: 0 <= k <= |es| ==> Lowest(side, es) <= Net(side, es[..k])
  {
    assert es[..|es|] == es;
    low := LowestUpTo(side, es, |es|);
  }

  lemma {:induction false} LowestUpTo(side: Side, es: seq<Event>, n: nat) returns (low: nat)
    requires NonNegative(es) && n <= |es|
    ensures low <= n && Lowest(side, es[..n]) == Net(side, es[..low])
    ensures forall k :: 0 <= k <= n ==> Lowest(side, es[..n]) <= Net(side, es[..k])
  {
    if n == 0 {
      low := 0;
    } else {
      low := LowestUpTo(side, es, n - 1);
      LowestOneMore(side, es, n - 1);
      hide Net, Lowest;
      if Lowest(side, es[..n]) != Lowest(side, es[..n - 1]) {
        low := n;
      }
    }
  }

  lemma LowestOneMore(side: Side, es: seq<Event>, n: nat)
    requires n < |es| && es[n].amount >= 0.0
    ensures var (before, now) := (Lowest(side, es[..n]), Lowest(side, es[..n + 1]));
            && now <= before && (now == before || now == Net(side, es[..n + 1]))
            && (before <= Net(side, es[..n]) ==> now <= Net(side, es[..n + 1]))
  {
    assert es[..n + 1][..n] == es[..n];
  }

  /** One event keeps every non-negative amount non-negative exactly when it is not
      a negative amount raising it. */
  lemma StaysNonNegativeExact(prices: Prices, side: Side, e: Event)
    ensures (forall p :: side.Held(p) >= 0.0 ==> side.Held(Some(Apply(prices, p, e))) >= 0.0)
            <==> !(e.kind == side.Raising() && e.amount < 0.0)
  {
    hide Apply;
    ApplyHeld(prices, side, None, e);
    forall p | side.Held(p) >= 0.0
      ensures !(e.kind == side.Raising() && e.amount < 0.0) ==> side.Held(Some(Apply(prices, p, e))) >= 0.0
    {
      ApplyHeld(prices, side, p, e);
    }
    assert side.Held(None) == 0.0;
  }

  /** `name` is the reserve of the last event of this kind; empty without one. */
  ghost predicate LastNamed(es: seq<Event>, kind: EventKind, name: string) {
    if exists i :: 0 <= i < |es| && es[i].kind == kind then
      exists i :: && 0 <= i < |es| && es[i].kind == kind && name == es[i].reserve
                  && forall j :: i < j < |es| ==> es[j].kind != kind
    else name == ""
  }

  lemma LastNamedOneMore(es: seq<Event>, e: Event, kind: EventKind, name: string)
    requires if e.kind == kind then name == e.reserve else LastNamed(es, kind, name)
    ensures LastNamed(es + [e], kind, name)
  {
    var more := es + [e];
    if e.kind == kind {
      assert more[|es|] == e;
    } else if exists i :: 0 <= i < |es| && es[i].kind == kind {
      var i :| && 0 <= i < |es| && es[i].kind == kind && name == es[i].reserve
               && forall j :: i < j < |es| ==> es[j].kind != kind;
      assert more[i].kind == kind && more[i].reserve == name;
    } else {
      assert forall i :: 0 <= i < |es| ==> more[i] == es[i];
    }
  }

  /** A position is in the asset supplied last and owes the one borrowed last:
      withdrawals and repayments, of whatever reserve, rename nothing. */
  lemma {:induction false} NamedByLast(prices: Prices, es: seq<Event>)
    requires es != []
    ensures LastNamed(es, SupplyCollateral, Fold(prices, es).value.collateralAsset)
    ensures LastNamed(es, Borrow, Fold(prices, es).value.debtAsset)
  {
    hide LendingRisk;
    var n := |es| - 1;
    var front, e := es[..n], es[n];
    assert es == front + [e];
    var before, after := OrUntouched(Fold(prices, front)), Fold(prices, es).value;
    assert after == Apply(prices, Fold(prices, front), e);
    hide Fold;
    if front != [] {
      NamedByLast(prices, front);
    }
    assert Fold(prices, []) == None by { FoldNothing(prices); }
    LastNamedOneMore(front, e, SupplyCollateral, after.collateralAsset);
    LastNamedOneMore(front, e, Borrow, after.debtAsset);
  }

  lemma FoldNothing(prices: Prices)
    ensures Fold(prices, []) == None
  {
  }

  /** The recorded risk, without dividing: an LTV where both assets are priced and
      there is collateral of value, a health factor where there is also debt. */
  ghost predicate IsRisk(prices: Prices, p: Position) {
    if p.collateralAsset in prices && p.debtAsset in prices then
      var (collateral, debt) := (p.collateral * prices[p.collateralAsset], p.debt * prices[p.debtAsset]);
      && (p.ltv.Some? <==> collateral != 0.0)
      && (p.ltv.Some? ==> p.ltv.value * collateral == 100.0 * debt)
      && (p.healthFactor.Some? <==> collateral != 0.0 && debt != 0.0)
      && (p.healthFactor.Some? ==> p.healthFactor.value * debt == collateral)
    else p.ltv.None? && p.healthFactor.None?
  }

  lemma AssessedRisk(prices: Prices, p: Position)
    requires p == Assess(prices, p)
    ensures IsRisk(prices, p)
  {
    if p.collateralAsset in prices && p.debtAsset in prices {
      QuotientRisk(Usd(p.collateral, prices[p.collateralAsset]), Usd(p.debt, prices[p.debtAsset]));
    }
  }

  lemma QuotientRisk(collateral: real, debt: real)
    ensures var (ltv, health) := UsdRisk(collateral, debt);
            && (ltv.Some? <==> collateral != 0.0) && (ltv.Some? ==> ltv.value * collateral == 100.0 * debt)
            && (health.Some? <==> collateral != 0.0 && debt != 0.0)
            && (health.Some? ==> health.value * debt == collateral)
  {
    if collateral != 0.0 {
      var ratio := debt / collateral;
      assert ratio * collateral == debt;
      assert (ratio * 100.0) * collateral == 100.0 * (ratio * collateral);
    }
  }

  /** After any stream, the risk on record is that of the assets and amounts on record. */
  lemma RecordedRisk(prices: Prices, es: seq<Event>)
    requires es != []
    ensures IsRisk(prices, Fold(prices, es).value)
  {
    hide Apply, IsRisk, Assess;
    ApplyIsAssessed(prices, Fold(prices, es[..|es| - 1]), es[|es| - 1]);
    AssessedRisk(prices, Fold(prices, es).value);
  }

  /** On a whole stream: the amount held is never negative exactly when every raising
      event, counted with its sign, leaves the net total at or above its lowest
      point. As what is held is the net above that point, those are the moments
      right after raising events at which it is not negative: no others can fail. */
  lemma NeverNegativeExact(prices: Prices, side: Side, es: seq<Event>)
    ensures (forall n :: 0 <= n <= |es| ==> side.Held(Fold(prices, es[..n])) >= 0.0)
            <==> forall n :: 0 <= n < |es| && es[n].kind == side.Raising() ==>
                   Net(side, es[..n + 1]) >= Lowest(side, es[..n])
  {
    hide Fold;
    forall n | 0 <= n <= |es|
      ensures side.Held(Fold(prices, es[..n])) == Net(side, es[..n]) - Lowest(side, es[..n])
    {
      HeldIsNetAboveLowest(prices, side, es[..n]);
    }
    forall n | 0 <= n < |es| && es[n].kind == side.Raising()
      ensures Lowest(side, es[..n + 1]) == Lowest(side, es[..n])
    {
      assert es[..n + 1][..n] == es[..n];
    }
    if forall n :: 0 <= n < |es| && es[n].kind == side.Raising() ==> Net(side, es[..n + 1]) >= Lowest(side, es[..n]) {
      forall n | 0 <= n <= |es|
        ensures Net(side, es[..n]) >= Lowest(side, es[..n])
      {
        NetStaysAbove(side, es, n);
      }
    }
  }

  lemma {:induction false} NetStaysAbove(side: Side, es: seq<Event>, n: nat)
    requires n <= |es|
    requires forall k :: 0 <= k < |es| && es[k].kind == side.Raising() ==>
               Net(side, es[..k + 1]) >= Lowest(side, es[..k])
    ensures Net(side, es[..n]) >= Lowest(side, es[..n])
  {
    if n > 0 {
      NetStaysAbove(side, es, n - 1);
      assert es[..n][..n - 1] == es[..n - 1];
      assert es[n - 1].kind == side.Raising() ==> Net(side, es[..n - 1 + 1]) >= Lowest(side, es[..n - 1]);
    }
  }

  // ---- risk levels and escalation ----

  /** A position's band; none while its LTV is undefined. */
  function LevelOf(bands: LtvBands, p: Option<Position>): Option<RiskLevel> {
    if p.None? || p.value.ltv.None? then None else Some(RiskLevelWithBands(p.value.ltv.value, bands))
  }

  predicate Severe(level: RiskLevel) { level.High? || level.Critical? }

  /** The alert test: severe now, and not already that severe before. */
  predicate Detects(before: Option<RiskLevel>, now: Option<RiskLevel>) {
    now.Some? && Severe(now.value) && (before.None? || RiskRank(now.value) > RiskRank(before.value))
  }

  /** The level after the first `n` events. */
  function LevelAfter(prices: Prices, bands: LtvBands, es: seq<Event>, n: nat): Option<RiskLevel>
    requires n <= |es|
  {
    LevelOf(bands, Fold(prices, es[..n]))
  }

  /** Event `n` raises an alert. */
  predicate EscalatesAt(prices: Prices, bands: LtvBands, es: seq<Event>, n: nat)
    requires n < |es|
  {
    Detects(LevelAfter(prices, bands, es, n), LevelAfter(prices, bands, es, n + 1))
  }

  /** The position stands at `rank` or higher right after event `k`. */
  predicate AtLeast(prices: Prices, bands: LtvBands, es: seq<Event>, k: nat, rank: nat)
    requires k < |es|
  {
    var level := LevelAfter(prices, bands, es, k + 1);
    level.Some? && RiskRank(level.value) >= rank
  }

  ghost predicate StaysAt(prices: Prices, bands: LtvBands, es: seq<Event>, m: nat, n: nat, rank: nat)
    requires n < |es|
  {
    forall k: nat :: m <= k <= n ==> AtLeast(prices, bands, es, k, rank)
  }

  /** Detection is complete: whenever a position is severe, an alert of at least
      its level was raised since it was last lower or undefined. */
  lemma {:induction false} EscalationIsCovered(prices: Prices, bands: LtvBands, es: seq<Event>, n: nat, rank: nat)
    returns (m: nat)
    requires n < |es| && RiskRank(High) <= rank && AtLeast(prices, bands, es, n, rank)
    ensures m <= n && EscalatesAt(prices, bands, es, m) && StaysAt(prices, bands, es, m, n, rank)
  {
    hide Fold;
    if n == 0 || !AtLeast(prices, bands, es, n - 1, rank) {
      m := n;
      NothingRecorded(prices, bands, es);
    } else {
      m := EscalationIsCovered(prices, bands, es, n - 1, rank);
    }
  }

  lemma NothingRecorded(prices: Prices, bands: LtvBands, es: seq<Event>)
    ensures LevelAfter(prices, bands, es, 0) == None
  {
  }

  /** Detection does not repeat itself: between two alerts at one level, the
      position was lower or undefined. */
  lemma EscalationNotRepeated(prices: Prices, bands: LtvBands, es: seq<Event>, i: nat, j: nat) returns (k: nat)
    requires i < j < |es| && EscalatesAt(prices, bands, es, i) && EscalatesAt(prices, bands, es, j)
    requires LevelAfter(prices, bands, es, i + 1) == LevelAfter(prices, bands, es, j + 1)
    ensures i < k < j
    ensures !AtLeast(prices, bands, es, k, RiskRank(LevelAfter(prices, bands, es, j + 1).value))
  {
    k := j - 1;
    assert LevelAfter(prices, bands, es, j) == LevelAfter(prices, bands, es, k + 1);
  }

  // ---- what never raises an alert ----

  ghost predicate Positive(prices: Prices) {
    forall asset :: asset in prices ==> prices[asset] > 0.0
  }

  /** Less debt against at least as much of the same collateral is less risk. */
  lemma RiskFalls(collateral: real, more: real, collateralPrice: Option<real>, debt: real, less: real,
                  debtPrice: Option<real>)
    requires 0.0 <= collateral <= more && 0.0 <= less <= debt
    requires collateralPrice.Some? ==> collateralPrice.value > 0.0
    requires debtPrice.Some? ==> debtPrice.value > 0.0
    ensures var before, after :=
              LendingRisk(collateral, collateralPrice, debt, debtPrice).0,
              LendingRisk(more, collateralPrice, less, debtPrice).0;
            && (before.Some? ==> after.Some? && after.value <= before.value)
            && (before.None? && more == collateral ==> after.None?)
  {
    hide UsdRisk, Usd;
    if collateralPrice.Some? && debtPrice.Some? {
      var c, c' := Usd(collateral, collateralPrice.value), Usd(more, collateralPrice.value);
      var d, d' := Usd(debt, debtPrice.value), Usd(less, debtPrice.value);
      UsdGrows(collateral, more, collateralPrice.value);
      UsdGrows(less, debt, debtPrice.value);
      UsdRiskFalls(c, c', d, d');
    }
  }

  lemma UsdRiskFalls(c: real, c': real, d: real, d': real)
    requires 0.0 <= c <= c' && 0.0 <= d' <= d
    ensures var before, after := UsdRisk(c, d).0, UsdRisk(c', d').0;
            && (before.Some? ==> after.Some? && after.value <= before.value)
            && (before.None? && c' == c ==> after.None?)
  {
    if c > 0.0 {
      Quotients(c, c', d, d');
    }
  }

  lemma UsdGrows(a: real, b: real, price: real)
    requires 0.0 <= a <= b && price > 0.0
    ensures 0.0 <= Usd(a, price) <= Usd(b, price)
  {
  }

  lemma Quotients(c: real, c': real, d: real, d': real)
    requires 0.0 < c <= c' && 0.0 <= d' <= d
    ensures d' / c' <= d / c
  {
    assert d' / c' <= d / c' by {
      assert (d / c') * c' == d && (d' / c') * c' == d';
    }
    assert d / c' <= d / c by {
      assert (d / c') * c' == d && (d / c) * c == d;
      var q := d / c;
      assert q >= 0.0;
      assert q * c' >= q * c;
    }
  }

  /** What every position on record satisfies. */
  ghost predicate Sound(prices: Prices, p: Position) {
    p.collateral >= 0.0 && p.debt >= 0.0 && p == Assess(prices, p)
  }

  lemma {:induction false} FoldIsSound(prices: Prices, es: seq<Event>)
    requires NonNegative(es)
    ensures forall side: Side :: side.Held(Fold(prices, es)) >= 0.0
    ensures es != [] ==> Sound(prices, Fold(prices, es).value)
  {
    hide LendingRisk, Apply;
    if es != [] {
      var before, e := Fold(prices, es[..|es| - 1]), es[|es| - 1];
      FoldIsSound(prices, es[..|es| - 1]);
      forall side: Side
        ensures side.Held(Some(Apply(prices, before, e))) >= 0.0
      {
        StaysNonNegativeExact(prices, side, e);
      }
      ApplyIsAssessed(prices, before, e);
      assert CollateralSide.Held(Fold(prices, es)) >= 0.0 && DebtSide.Held(Fold(prices, es)) >= 0.0;
    }
  }

  lemma ApplyIsAssessed(prices: Prices, p: Option<Position>, e: Event)
    ensures Assess(prices, Apply(prices, p, e)) == Apply(prices, p, e)
  {
    hide LendingRisk;
  }

  /** A repay, or a supply of the collateral asset already held under a known LTV,
      never raises the risk rank and never raises an alert. */
  lemma EasingStep(prices: Prices, bands: LtvBands, p: Position, e: Event)
    requires Positive(prices) && Sound(prices, p) && e.amount >= 0.0
    requires e.kind == Repay || (e.kind == SupplyCollateral && e.reserve == p.collateralAsset && p.ltv.Some?)
    ensures var before, now := LevelOf(bands, Some(p)), LevelOf(bands, Some(Apply(prices, Some(p), e)));
            && (before.Some? <==> now.Some?)
            && (now.Some? ==> RiskRank(now.value) <= RiskRank(before.value))
            && !Detects(before, now)
  {
    hide LendingRisk, RiskLevelWithBands;
    var after := Apply(prices, Some(p), e);
    RiskFalls(p.collateral, after.collateral, PriceOf(prices, p.collateralAsset),
              p.debt, after.debt, PriceOf(prices, p.debtAsset));
    if p.ltv.Some? {
      RankIsMonotone(after.ltv.value, p.ltv.value, bands);
    }
  }

  /** The position the `n`-th event of a stream meets. */
  function Met(prices: Prices, es: seq<Event>, n: nat): Position
    requires n <= |es|
  {
    OrUntouched(Fold(prices, es[..n]))
  }

  lemma MetIsSound(prices: Prices, bands: LtvBands, es: seq<Event>, n: nat)
    requires NonNegative(es) && n < |es|
    ensures var p := Met(prices, es, n);
            && Sound(prices, p)
            && LevelAfter(prices, bands, es, n) == LevelOf(bands, Some(p))
            && LevelAfter(prices, bands, es, n + 1) == LevelOf(bands, Some(Apply(prices, Some(p), es[n])))
  {
    hide Apply;
    assert es[..n + 1][..n] == es[..n] && es[..n + 1][n] == es[n];
    FoldIsSound(prices, es[..n]);
    UntouchedIsSound(prices, es[n]);
  }

  lemma UntouchedIsSound(prices: Prices, e: Event)
    ensures Sound(prices, UNTOUCHED) && Apply(prices, None, e) == Apply(prices, Some(UNTOUCHED), e)
  {
  }

  /** In any stream a repay, or a supply of the collateral asset held under a known
      LTV, never raises the rank and never alerts. */
  lemma EasingNeverAlerts(prices: Prices, bands: LtvBands, es: seq<Event>, n: nat)
    requires Positive(prices) && NonNegative(es) && n < |es|
    requires var p := Met(prices, es, n);
             || es[n].kind == Repay
             || (es[n].kind == SupplyCollateral && es[n].reserve == p.collateralAsset && p.ltv.Some?)
    ensures !EscalatesAt(prices, bands, es, n)
    ensures var before, now := LevelAfter(prices, bands, es, n), LevelAfter(prices, bands, es, n + 1);
            (before.Some? <==> now.Some?) && (now.Some? ==> RiskRank(now.value) <= RiskRank(before.value))
  {
    hide Apply, LevelOf, LevelAfter, Detects, Fold;
    MetIsSound(prices, bands, es, n);
    EasingStep(prices, bands, Met(prices, es, n), es[n]);
  }

  // ---- exactly which supplies alert ----

  /** The debt is `cutoff` percent of the collateral, or more. */
  predicate Reaches(debtUsd: real, collateralUsd: real, cutoff: real) {
    100.0 * debtUsd >= Times(cutoff, collateralUsd)
  }

  function Times(a: real, b: real): real { a * b }

  function Min(a: real, b: real): real { if a < b then a else b }

  /** Supplying `e` to `p` takes its debt across a severe cutoff: from an unknown
      LTV, or from below because the whole holding is now worth the new asset's
      price. A debt already past the critical cutoff crosses nothing. */
  predicate Crosses(prices: Prices, bands: LtvBands, p: Position, e: Event) {
    && e.reserve in prices && p.debtAsset in prices && p.collateral + e.amount > 0.0
    && var debt := Usd(p.debt, prices[p.debtAsset]);
       var after := Usd(p.collateral + e.amount, prices[e.reserve]);
       if p.collateral == 0.0 || p.collateralAsset !in prices then
         Reaches(debt, after, Min(bands.high, bands.critical))
       else
         var before := Usd(p.collateral, prices[p.collateralAsset]);
         && !Reaches(debt, before, bands.critical)
         && (|| Reaches(debt, after, bands.critical)
             || (Reaches(debt, after, bands.high) && !Reaches(debt, before, bands.high)))
  }

  lemma LtvReaches(collateralUsd: real, debtUsd: real, cutoff: real)
    requires collateralUsd > 0.0
    ensures UsdRisk(collateralUsd, debtUsd).0.Some?
    ensures UsdRisk(collateralUsd, debtUsd).0.value >= cutoff <==> Reaches(debtUsd, collateralUsd, cutoff)
  {
    var ratio := debtUsd / collateralUsd;
    assert ratio * collateralUsd == debtUsd;
    assert (ratio * 100.0) * collateralUsd == 100.0 * debtUsd;
    Scaled(ratio * 100.0, cutoff, collateralUsd);
  }

  lemma Scaled(a: real, b: real, scale: real)
    requires scale > 0.0
    ensures a * scale >= b * scale <==> a >= b
  {
  }

  lemma PositiveUsd(amount: real, price: real)
    requires amount >= 0.0 && price > 0.0
    ensures Usd(amount, price) >= 0.0 && (Usd(amount, price) == 0.0 <==> amount == 0.0)
  {
  }

  /** When a position's LTV is known, and when it reaches a cutoff. */
  lemma LtvOf(prices: Prices, p: Position, cutoff: real)
    requires Positive(prices) && Sound(prices, p)
    ensures p.ltv.Some? <==> p.collateralAsset in prices && p.debtAsset in prices && p.collateral > 0.0
    ensures p.ltv.Some? ==>
              (p.ltv.value >= cutoff
               <==> Reaches(Usd(p.debt, prices[p.debtAsset]), Usd(p.collateral, prices[p.collateralAsset]), cutoff))
  {
    hide UsdRisk, Usd, Reaches;
    if p.collateralAsset in prices && p.debtAsset in prices {
      PositiveUsd(p.collateral, prices[p.collateralAsset]);
      if p.collateral > 0.0 {
        LtvReaches(Usd(p.collateral, prices[p.collateralAsset]), Usd(p.debt, prices[p.debtAsset]), cutoff);
      } else {
        NoCollateralNoLtv(Usd(p.debt, prices[p.debtAsset]));
      }
    }
  }

  lemma NoCollateralNoLtv(debtUsd: real)
    ensures UsdRisk(0.0, debtUsd) == (None, None)
  {
  }

  /** The alert test in terms of the two cutoffs alone, ordered or not. */
  lemma DetectsExactly(bands: LtvBands, before: Option<real>, now: real)
    ensures var level := if before.Some? then Some(RiskLevelWithBands(before.value, bands)) else None;
            Detects(level, Some(RiskLevelWithBands(now, bands)))
            <==> if before.None? then now >= Min(bands.high, bands.critical)
                 else
                   && before.value < bands.critical
                   && (now >= bands.critical || (now >= bands.high && before.value < bands.high))
  {
  }

  /** A supply, of any asset, alerts exactly when it takes the debt across a severe
      cutoff. */
  lemma SupplyStepExactly(prices: Prices, bands: LtvBands, p: Position, e: Event)
    requires Positive(prices) && Sound(prices, p) && e.amount >= 0.0 && e.kind == SupplyCollateral
    ensures Detects(LevelOf(bands, Some(p)), LevelOf(bands, Some(Apply(prices, Some(p), e))))
            <==> Crosses(prices, bands, p, e)
  {
    hide Assess, RiskLevelWithBands, Usd, Reaches, Detects;
    var after := Apply(prices, Some(p), e);
    ApplyIsAssessed(prices, Some(p), e);
    Supplied(prices, p, e);
    LtvOf(prices, after, bands.high);
    LtvOf(prices, after, bands.critical);
    LtvOf(prices, p, bands.high);
    LtvOf(prices, p, bands.critical);
    if after.ltv.Some? {
      DetectsExactly(bands, p.ltv, after.ltv.value);
    } else {
      NoLevelNoAlert(LevelOf(bands, Some(p)));
    }
  }

  lemma Supplied(prices: Prices, p: Position, e: Event)
    requires e.kind == SupplyCollateral
    ensures var after := Apply(prices, Some(p), e);
            && after.collateralAsset == e.reserve && after.collateral == p.collateral + e.amount
            && after.debtAsset == p.debtAsset && after.debt == p.debt
  {
    hide LendingRisk;
  }

  lemma NoLevelNoAlert(before: Option<RiskLevel>)
    ensures !Detects(before, None)
  {
  }

  /** In any stream, a supply raises an alert if and only if it takes the debt
      across a severe cutoff. */
  lemma SupplyAlertsExactly(prices: Prices, bands: LtvBands, es: seq<Event>, n: nat)
    requires Positive(prices) && NonNegative(es) && n < |es| && es[n].kind == SupplyCollateral
    ensures EscalatesAt(prices, bands, es, n) <==> Crosses(prices, bands, Met(prices, es, n), es[n])
  {
    hide Apply, LevelOf, LevelAfter, Detects, Fold, Crosses;
    MetIsSound(prices, bands, es, n);
    SupplyStepExactly(prices, bands, Met(prices, es, n), es[n]);
  }

  /** For the asset already held, only a first supply, to an empty holding whose
      debt is large enough, alerts. */
  lemma SameAssetSupplyAlertsExactly(prices: Prices, bands: LtvBands, es: seq<Event>, n: nat)
    requires Positive(prices) && NonNegative(es) && n < |es| && es[n].kind == SupplyCollateral
    requires es[n].reserve == Met(prices, es, n).collateralAsset
    ensures var p, e := Met(prices, es, n), es[n];
            EscalatesAt(prices, bands, es, n)
            <==> && p.collateral == 0.0 && e.amount > 0.0 && e.reserve in prices && p.debtAsset in prices
                 && Reaches(Usd(p.debt, prices[p.debtAsset]), Usd(e.amount, prices[e.reserve]),
                            Min(bands.high, bands.critical))
  {
    hide EscalatesAt, Usd, Reaches, Fold;
    var p, e := Met(prices, es, n), es[n];
    SupplyAlertsExactly(prices, bands, es, n);
    MetIsSound(prices, bands, es, n);
    if p.collateral > 0.0 && p.collateralAsset in prices && p.debtAsset in prices {
      LtvOf(prices, p, 0.0);
      EasingNeverAlerts(prices, bands, es, n);
    }
  }

  lemma FoldNext(prices: Prices, es: seq<Event>, n: nat)
    requires n < |es|
    ensures Fold(prices, es[..0]) == None
    ensures Fold(prices, es[..n + 1]) == Some(Apply(prices, Fold(prices, es[..n]), es[n]))
  {
    assert es[..n + 1][..n] == es[..n];
  }

  const ACCOUNT := PositionKey("pool", "account")

  /** A debt left bare by a withdrawal: the next supply of the same asset alerts. */
  lemma FirstSupplyCanAlert()
    ensures var es := [
              Event(ACCOUNT, 0, SupplyCollateral, "C", 9.0), Event(ACCOUNT, 1, Borrow, "D", 9.0),
              Event(ACCOUNT, 2, WithdrawCollateral, "C", 9.0), Event(ACCOUNT, 3, SupplyCollateral, "C", 9.0)];
            EscalatesAt(map["C" := 1.0, "D" := 1.0], DEFAULT_BANDS, es, 3)
  {
    var prices := map["C" := 1.0, "D" := 1.0];
    var es := [
      Event(ACCOUNT, 0, SupplyCollateral, "C", 9.0), Event(ACCOUNT, 1, Borrow, "D", 9.0),
      Event(ACCOUNT, 2, WithdrawCollateral, "C", 9.0), Event(ACCOUNT, 3, SupplyCollateral, "C", 9.0)];
    hide Fold;
    FoldNext(prices, es, 0);
    FoldNext(prices, es, 1);
    assert Fold(prices, es[..2]) == Some(Position("C", 9.0, "D", 9.0, Some(100.0), Some(1.0)));
    FoldNext(prices, es, 2);
    assert Fold(prices, es[..3]) == Some(Position("C", 0.0, "D", 9.0, None, None));
    FoldNext(prices, es, 3);
  }

  /** A supply of another asset reprices the whole holding: here 100 of an asset
      worth 10 back a debt of 500, and one unit of an asset worth 1 takes the LTV
      from 50 to 495. */
  lemma OtherAssetSupplyCanAlert()
    ensures var prices := map["A" := 10.0, "B" := 1.0, "D" := 10.0];
            var es := [
              Event(ACCOUNT, 0, SupplyCollateral, "A", 100.0), Event(ACCOUNT, 1, Borrow, "D", 50.0),
              Event(ACCOUNT, 2, SupplyCollateral, "B", 1.0)];
            LevelAfter(prices, DEFAULT_BANDS, es, 2) == Some(Low) && EscalatesAt(prices, DEFAULT_BANDS, es, 2)
  {
    var prices := map["A" := 10.0, "B" := 1.0, "D" := 10.0];
    var es := [
      Event(ACCOUNT, 0, SupplyCollateral, "A", 100.0), Event(ACCOUNT, 1, Borrow, "D", 50.0),
      Event(ACCOUNT, 2, SupplyCollateral, "B", 1.0)];
    hide Fold;
    FoldNext(prices, es, 0);
    FoldNext(prices, es, 1);
    assert Fold(prices, es[..2]) == Some(Position("A", 100.0, "D", 50.0, Some(50.0), Some(2.0)));
    FoldNext(prices, es, 2);
  }
}
