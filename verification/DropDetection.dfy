/** Sudden liquidity drops (`ingest_pool`, src/bin/ingest.rs): the test between two
    snapshots of a pool's shares, and what many of them in a row amount to. */
module DropDetection {
  import opened Wrappers

  function PercentChange(before: real, now: real): Option<real> {
    if before == 0.0 then None else Some((now - before) / before * 100.0)
  }

  /** The size of the drop, in percent, if it is one to alert on. */
  function DropAlert(previous: Option<real>, now: real, threshold: real): Option<real> {
    if previous.None? then None
    else
      match PercentChange(previous.value, now)
      case None => None
      case Some(change) => if change >= 0.0 || -change < threshold then None else Some(-change)
  }

  lemma Percent(before: real, now: real)
    requires before != 0.0
    ensures PercentChange(before, now).value * before == 100.0 * (now - before)
  {
    var ratio := (now - before) / before;
    assert ratio * before == now - before;
    assert (ratio * 100.0) * before == 100.0 * (ratio * before);
  }

  lemma Compare(a: real, b: real, scale: real)
    requires scale > 0.0
    ensures a * scale < b * scale <==> a < b
  {
  }

  /** The percent test, division-free, for every pair of snapshots and every
      threshold; the last case, which shares never reach, is mirrored. */
  lemma AlertsExactlyOnDrops(before: real, now: real, threshold: real)
    ensures before == 0.0 ==> DropAlert(Some(before), now, threshold).None?
    ensures before > 0.0 ==>
              (DropAlert(Some(before), now, threshold).Some?
               <==> now < before && 100.0 * (before - now) >= threshold * before)
    ensures before < 0.0 ==>
              (DropAlert(Some(before), now, threshold).Some?
               <==> now > before && 100.0 * (now - before) >= threshold * -before)
  {
    hide PercentChange;
    NoneFromZero(now);
    if before < 0.0 {
      Percent(before, now);
      SomeFromNonZero(before, now);
      var change := PercentChange(before, now).value;
      Compare(change, 0.0, -before);
      Compare(-change, threshold, -before);
      assert (-change) * -before == 100.0 * (now - before);
    }
    if before > 0.0 {
      Percent(before, now);
      SomeFromNonZero(before, now);
      var change := PercentChange(before, now).value;
      Compare(change, 0.0, before);
      Compare(-change, threshold, before);
      assert (-change) * before == 100.0 * (before - now);
    }
  }

  /** The percentage reported is the drop relative to what was there before. */
  lemma DropPercent(before: real, now: real, threshold: real)
    requires DropAlert(Some(before), now, threshold).Some?
    ensures DropAlert(Some(before), now, threshold).value * before == 100.0 * (before - now)
    ensures DropAlert(Some(before), now, threshold).value >= threshold
  {
    hide PercentChange;
    NoneFromZero(now);
    Percent(before, now);
  }

  lemma NoneFromZero(now: real)
    ensures PercentChange(0.0, now).None?
  {
  }

  lemma SomeFromNonZero(before: real, now: real)
    requires before != 0.0
    ensures PercentChange(before, now).Some?
  {
  }

  /** A drop too small for one threshold is too small for any higher one. */
  lemma HigherThresholdIsSilent(previous: Option<real>, now: real, threshold: real, higher: real)
    requires threshold <= higher && DropAlert(previous, now, threshold).None?
    ensures DropAlert(previous, now, higher).None?
  {
  }

  // ---- snapshots in a row ----

  /** No snapshot of `shares` alerts against the one before it. */
  ghost predicate Silent(shares: seq<real>, threshold: real) {
    forall i {:trigger shares[i]} :: 0 < i < |shares| ==> DropAlert(Some(shares[i - 1]), shares[i], threshold).None?
  }

  /** What one silent step is sure to keep, as a fraction. */
  function Kept(threshold: real): real { (100.0 - threshold) / 100.0 }

  function Pow(base: real, n: nat): real {
    if n == 0 then 1.0 else base * Pow(base, n - 1)
  }

  /** The floor after `n` silent steps. */
  function Floor(start: real, threshold: real, n: nat): real { start * Pow(Kept(threshold), n) }

  lemma KeptRange(threshold: real)
    requires 0.0 < threshold < 100.0
    ensures 0.0 < Kept(threshold) < 1.0
  {
  }

  lemma FloorStep(start: real, threshold: real, n: nat)
    requires 0.0 < threshold < 100.0 && start > 0.0
    ensures Floor(start, threshold, n) > 0.0
    ensures Floor(start, threshold, n + 1) == Kept(threshold) * Floor(start, threshold, n)
  {
    KeptRange(threshold);
    var k := Kept(threshold);
    PowPositive(k, n);
    assert start * (k * Pow(k, n)) == k * (start * Pow(k, n));
    assert start * Pow(k, n) > 0.0;
  }

  lemma {:induction false} PowPositive(base: real, n: nat)
    requires base > 0.0
    ensures Pow(base, n) > 0.0
  {
    if n > 0 {
      PowPositive(base, n - 1);
    }
  }

  /** One step from a positive amount is silent exactly when it keeps more than
      that fraction. */
  lemma SilentStep(before: real, now: real, threshold: real)
    requires before > 0.0 && 0.0 < threshold < 100.0
    ensures DropAlert(Some(before), now, threshold).None? <==> now > Kept(threshold) * before
  {
    hide DropAlert, Kept;
    AlertsExactlyOnDrops(before, now, threshold);
    KeptTimes(before, threshold);
  }

  lemma KeptTimes(before: real, threshold: real)
    requires before > 0.0 && 0.0 < threshold < 100.0
    ensures 100.0 * (Kept(threshold) * before) == 100.0 * before - threshold * before
    ensures Kept(threshold) * before < before
  {
    KeptRange(threshold);
    Compare(Kept(threshold), 1.0, before);
  }

  lemma Scale(k: real, a: real, b: real)
    requires k > 0.0 && a > b
    ensures k * a > k * b
  {
  }

  /** Silence keeps the amount above the geometric floor. */
  lemma {:induction false} SilentStaysAbove(shares: seq<real>, threshold: real)
    requires |shares| >= 1 && shares[0] > 0.0 && 0.0 < threshold < 100.0 && Silent(shares, threshold)
    ensures var n := |shares| - 1;
            shares[n] >= Floor(shares[0], threshold, n) > 0.0
            && (n >= 1 ==> shares[n] > Floor(shares[0], threshold, n))
  {
    hide Floor, Pow, Kept, DropAlert;
    var n := |shares| - 1;
    if n == 0 {
      FloorStart(shares[0], threshold);
    } else {
      SilentStaysAbove(shares[..n], threshold);
      var before := shares[n - 1];
      assert DropAlert(Some(shares[n - 1]), shares[n], threshold).None?;
      SilentStep(before, shares[n], threshold);
      FloorStep(shares[0], threshold, n - 1);
      FloorStep(shares[0], threshold, n);
      KeptRange(threshold);
      if before > Floor(shares[0], threshold, n - 1) {
        Scale(Kept(threshold), before, Floor(shares[0], threshold, n - 1));
      }
    }
  }

  lemma FloorStart(start: real, threshold: real)
    ensures Floor(start, threshold, 0) == start
  {
  }

  /** The lowest of all silent paths to `end`: the floor, raised throughout. */
  function Path(start: real, threshold: real, n: nat, raise: real): seq<real> {
    [start] + seq(n, i requires 0 <= i < n => Floor(start, threshold, i + 1) + raise)
  }

  lemma RaisedStep(k: real, floor: real, before: real, raise: real)
    requires 0.0 < k < 1.0 && raise > 0.0 && (before == floor || before == floor + raise)
    ensures k * before < k * floor + raise
  {
    var part := k * raise;
    Compare(k, 1.0, raise);
    assert part < raise;
    if before != floor {
      assert k * before == k * (floor + raise);
      assert k * (floor + raise) == k * floor + part;
    }
  }

  lemma PathIsSilent(start: real, threshold: real, n: nat, raise: real)
    requires start > 0.0 && 0.0 < threshold < 100.0 && raise > 0.0
    ensures Silent(Path(start, threshold, n, raise), threshold)
  {
    hide Floor, Kept, DropAlert;
    var shares := Path(start, threshold, n, raise);
    KeptRange(threshold);
    FloorStart(start, threshold);
    forall i | 0 < i < |shares|
      ensures DropAlert(Some(shares[i - 1]), shares[i], threshold).None?
    {
      FloorStep(start, threshold, i - 1);
      var before := shares[i - 1];
      RaisedStep(Kept(threshold), Floor(start, threshold, i - 1), before, raise);
      assert shares[i] == Floor(start, threshold, i) + raise;
      SilentStep(before, shares[i], threshold);
    }
  }

  /** After `n` silent steps any amount above the floor is possible and none at or
      below it: the geometric bound is exact. */
  lemma SilentReach(start: real, threshold: real, n: nat, end: real)
    requires start > 0.0 && 0.0 < threshold < 100.0 && n >= 1
    ensures (exists shares :: |shares| == n + 1 && shares[0] == start && shares[n] == end && Silent(shares, threshold))
            <==> end > Floor(start, threshold, n)
  {
    hide Floor, Silent;
    forall shares | |shares| == n + 1 && shares[0] == start && shares[n] == end && Silent(shares, threshold)
      ensures end > Floor(start, threshold, n)
    {
      SilentStaysAbove(shares, threshold);
    }
    if end > Floor(start, threshold, n) {
      var shares := Path(start, threshold, n, end - Floor(start, threshold, n));
      PathIsSilent(start, threshold, n, end - Floor(start, threshold, n));
      assert |shares| == n + 1 && shares[0] == start && shares[n] == end;
    }
  }
}
