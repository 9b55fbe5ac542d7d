/** Multi-hop price discovery (`ingest_prices`, src/bin/ingest.rs): a layered
    search outward from XLM over AMM pools. The specification is `Layer`, one
    map of prices per hop; `IngestPrices` is the nested loop over mutable maps. */
module PriceDiscovery {
  import opened Wrappers
  import opened Pricing

  const MAX_PRICE_HOPS := 4

  type Prices = map<AssetId, real>

  /** The best price seen so far for one asset in the current hop. */
  datatype Best = Best(weight: real, price: real)

  // ---- legs: one pool read in one direction ----

  /** A pool read from one of its assets to the other. */
  datatype Direction = Direction(market: Market, forward: bool) {
    function From(): AssetId { if forward then market.idA else market.idB }

    function To(): AssetId { if forward then market.idB else market.idA }

    /** The known-side reserve, in the known asset's own units. */
    function Depth(): real { if forward then market.reserveA else market.reserveB }

    function Other(): real { if forward then market.reserveB else market.reserveA }

    /** Only the priced side's reserve has to be non-zero. */
    predicate Usable() { From() != To() && Other() != 0.0 }
  }

  /** A direction in which the pool prices `To` from `From`. */
  type Leg = d: Direction | d.Usable()
    witness Direction(Market(NATIVE, 1.0, AssetId("", ""), 1.0), true)

  function Ratio(leg: Leg): real { leg.Depth() / leg.Other() }

  /** The leg by which a pool reaches out of a set of known assets. */
  function Bridge(market: Market, known: set<AssetId>): (leg: Option<Leg>)
    ensures leg.Some? ==>
              leg.value.market == market && leg.value.From() in known && leg.value.To() !in known
  {
    var there, back := Direction(market, true), Direction(market, false);
    if there.Usable() && there.From() in known && there.To() !in known then Some(there)
    else if back.Usable() && back.From() in known && back.To() !in known then Some(back)
    else None
  }

  function QuoteOf(leg: Leg, priced: Prices): Quote
    requires leg.From() in priced
  {
    Quote(leg.To(), Implied(leg.Depth(), leg.Other(), priced[leg.From()]), leg.Depth())
  }

  /** Of all the known assets a hop may try on a pool, in whatever order, the only
      one that yields a quote for an unpriced asset is the bridge's. */
  lemma PoolYieldsOneQuote(pool: Pool, priced: Prices, known: AssetId)
    requires known in priced
    ensures var quote := PriceFromKnownLeg(pool, known, priced[known]);
            var leg := Bridge(Resolve(pool), priced.Keys);
            (quote.Some? && quote.value.asset !in priced) <==> (leg.Some? && leg.value.From() == known)
    ensures var quote := PriceFromKnownLeg(pool, known, priced[known]);
            var leg := Bridge(Resolve(pool), priced.Keys);
            leg.Some? && leg.value.From() == known ==> quote == Some(QuoteOf(leg.value, priced))
  {
    var market := Resolve(pool);
    var there, back := Direction(market, true), Direction(market, false);
    assert there.From() == back.To() == market.idA && there.To() == back.From() == market.idB;
  }

  // ---- one hop ----

  /** `entry(..).and_modify(..).or_insert(..)`: keep the strictly deepest. */
  function Offer(newly: map<AssetId, Best>, quote: Quote): map<AssetId, Best> {
    if quote.asset in newly && quote.weight <= newly[quote.asset].weight then newly
    else newly[quote.asset := Best(quote.weight, quote.price)]
  }

  /** What one hop finds in the first `n` pools. */
  function Newly(markets: seq<Market>, n: nat, priced: Prices): (newly: map<AssetId, Best>)
    requires n <= |markets|
    ensures newly.Keys !! priced.Keys
  {
    if n == 0 then map[]
    else
      var newly := Newly(markets, n - 1, priced);
      match Bridge(markets[n - 1], priced.Keys)
      case None => newly
      case Some(leg) => Offer(newly, QuoteOf(leg, priced))
  }

  function Merge(priced: Prices, newly: map<AssetId, Best>): Prices {
    priced + (map asset | asset in newly :: newly[asset].price)
  }

  /** The price map after `hops` hops, without the early exit. */
  function Layer(markets: seq<Market>, xlmUsd: real, hops: nat): (priced: Prices)
    ensures NATIVE in priced
  {
    if hops == 0 then map[NATIVE := xlmUsd]
    else
      var priced := Layer(markets, xlmUsd, hops - 1);
      Merge(priced, Newly(markets, |markets|, priced))
  }

  predicate Reaches(market: Market, known: set<AssetId>, asset: AssetId) {
    var leg := Bridge(market, known);
    leg.Some? && leg.value.To() == asset
  }

  function DepthTo(market: Market, known: set<AssetId>, asset: AssetId): real
    requires Reaches(market, known, asset)
  {
    Bridge(market, known).value.Depth()
  }

  /** Pool `i` is the one a hop picks for `asset`: the first in list order among
      the deepest that reach it. Prices play no part in the choice. */
  ghost predicate FirstDeepest(markets: seq<Market>, n: nat, known: set<AssetId>, asset: AssetId, i: nat)
    requires n <= |markets|
  {
    && i < n
    && Reaches(markets[i], known, asset)
    && (forall j: nat :: j < n && Reaches(markets[j], known, asset) ==>
          DepthTo(markets[j], known, asset) <= DepthTo(markets[i], known, asset))
    && (forall j: nat :: j < i && Reaches(markets[j], known, asset) ==>
          DepthTo(markets[j], known, asset) < DepthTo(markets[i], known, asset))
  }

  /** That pool's index, found in one pass over the list. */
  function Choice(markets: seq<Market>, n: nat, known: set<AssetId>, asset: AssetId): (i: Option<nat>)
    requires n <= |markets|
    ensures i.Some? ==> i.value < n && Reaches(markets[i.value], known, asset)
  {
    if n == 0 then None
    else
      var i := Choice(markets, n - 1, known, asset);
      if !Reaches(markets[n - 1], known, asset) then i
      else if i.Some? && DepthTo(markets[n - 1], known, asset) <= DepthTo(markets[i.value], known, asset) then i
      else Some(n - 1)
  }

  lemma {:induction false} ChoiceIsDeepest(markets: seq<Market>, n: nat, known: set<AssetId>, asset: AssetId)
    requires n <= |markets|
    ensures var c := Choice(markets, n, known, asset);
            && (c.Some? ==> FirstDeepest(markets, n, known, asset, c.value))
            && (c.None? ==> forall j: nat :: j < n ==> !Reaches(markets[j], known, asset))
  {
    if n > 0 {
      ChoiceIsDeepest(markets, n - 1, known, asset);
    }
  }

  /** The pool so described is unique, and `Choice` finds exactly it. */
  lemma ChoiceIsFirstDeepest(markets: seq<Market>, n: nat, known: set<AssetId>, asset: AssetId, i: nat)
    requires n <= |markets|
    ensures FirstDeepest(markets, n, known, asset, i) <==> Choice(markets, n, known, asset) == Some(i)
  {
    ChoiceIsDeepest(markets, n, known, asset);
  }

  /** A hop prices `asset` over `leg`. */
  predicate Crosses(markets: seq<Market>, known: set<AssetId>, asset: AssetId, leg: Leg) {
    var i := Choice(markets, |markets|, known, asset);
    i.Some? && Bridge(markets[i.value], known) == Some(leg)
  }

  /** The hop's price for `asset`, if it finds one: the chosen pool's. */
  function Picked(markets: seq<Market>, n: nat, priced: Prices, asset: AssetId): Option<Best>
    requires n <= |markets|
  {
    match Choice(markets, n, priced.Keys, asset)
    case None => None
    case Some(i) =>
      var leg := Bridge(markets[i], priced.Keys).value;
      Some(Best(leg.Depth(), Implied(leg.Depth(), leg.Other(), priced[leg.From()])))
  }

  /** The hop's loop over all pools computes exactly the chosen pool's quote. */
  lemma {:induction false} HopPicksFirstDeepest(markets: seq<Market>, n: nat, priced: Prices, asset: AssetId)
    requires n <= |markets|
    ensures asset in Newly(markets, n, priced) <==> Picked(markets, n, priced, asset).Some?
    ensures asset in Newly(markets, n, priced) ==>
              Some(Newly(markets, n, priced)[asset]) == Picked(markets, n, priced, asset)
  {
    if n > 0 {
      HopPicksFirstDeepest(markets, n - 1, priced, asset);
    }
  }

  // ---- the whole search ----

  /** One more hop keeps every price already set. */
  lemma LayerGrows(markets: seq<Market>, xlmUsd: real, hops: nat, more: nat)
    requires hops <= more
    ensures forall asset :: asset in Layer(markets, xlmUsd, hops) ==>
              asset in Layer(markets, xlmUsd, more)
              && Layer(markets, xlmUsd, more)[asset] == Layer(markets, xlmUsd, hops)[asset]
  {
    if hops < more {
      LayerGrows(markets, xlmUsd, hops, more - 1);
    }
  }

  /** Stopping at the first hop that finds nothing loses nothing: no larger hop
      budget would have added an asset. */
  lemma {:induction false} EmptyHopIsFinal(markets: seq<Market>, xlmUsd: real, hops: nat, more: nat)
    requires hops <= more
    requires Newly(markets, |markets|, Layer(markets, xlmUsd, hops)) == map[]
    ensures Layer(markets, xlmUsd, more) == Layer(markets, xlmUsd, hops)
  {
    hide Newly;
    if hops < more {
      EmptyHopIsFinal(markets, xlmUsd, hops, more - 1);
      var last := Layer(markets, xlmUsd, hops);
      assert Merge(last, map[]) == last;
    }
  }

  /** `chain` leads from native XLM to `asset` through the given pools. */
  ghost predicate IsChain(markets: seq<Market>, chain: seq<Leg>, asset: AssetId) {
    if chain == [] then asset == NATIVE
    else
      var leg := chain[|chain| - 1];
      leg.market in markets && leg.To() == asset && IsChain(markets, chain[..|chain| - 1], leg.From())
  }

  /** The product of a chain's reserve ratios. */
  ghost function Rate(chain: seq<Leg>): real {
    if chain == [] then 1.0 else Ratio(chain[|chain| - 1]) * Rate(chain[..|chain| - 1])
  }

  /** `chain` is how the search priced `asset`: hop by hop, each asset on it was
      first priced in the hop of its own distance, through the pool that hop
      picks, at the XLM price times the product of the ratios so far. */
  ghost predicate Derives(markets: seq<Market>, xlmUsd: real, chain: seq<Leg>, asset: AssetId) {
    var hop := |chain|;
    && asset in Layer(markets, xlmUsd, hop)
    && Layer(markets, xlmUsd, hop)[asset] == Rate(chain) * xlmUsd
    && if hop == 0 then asset == NATIVE
       else
         var known := Layer(markets, xlmUsd, hop - 1).Keys;
         var leg := chain[hop - 1];
         && asset !in known
         && Crosses(markets, known, asset, leg)
         && Derives(markets, xlmUsd, chain[..hop - 1], leg.From())
  }

  lemma RateTimes(leg: Leg, price: real, rate: real, carried: real, xlmUsd: real)
    requires price == rate * xlmUsd && carried == Ratio(leg) * rate
    ensures Implied(leg.Depth(), leg.Other(), price) == carried * xlmUsd
  {
  }

  /** A usable leg out of the priced assets prices its other end in one hop. */
  lemma LegPrices(markets: seq<Market>, priced: Prices, leg: Leg)
    requires leg.market in markets && leg.From() in priced
    ensures leg.To() in priced || leg.To() in Newly(markets, |markets|, priced)
  {
    if leg.To() !in priced {
      var i: nat :| i < |markets| && markets[i] == leg.market;
      assert leg == Direction(leg.market, leg.forward);
      assert Reaches(markets[i], priced.Keys, leg.To());
      ChoiceIsDeepest(markets, |markets|, priced.Keys, leg.To());
      HopPicksFirstDeepest(markets, |markets|, priced, leg.To());
    }
  }

  lemma {:induction false} ChainPrices(markets: seq<Market>, xlmUsd: real, chain: seq<Leg>, asset: AssetId)
    requires IsChain(markets, chain, asset)
    ensures asset in Layer(markets, xlmUsd, |chain|)
  {
    if chain != [] {
      var leg := chain[|chain| - 1];
      ChainPrices(markets, xlmUsd, chain[..|chain| - 1], leg.From());
      var priced := Layer(markets, xlmUsd, |chain| - 1);
      LegPrices(markets, priced, leg);
    }
  }

  /** A leg that first prices an asset in some hop starts at an asset first
      priced in the hop before: else it would have been crossed earlier. */
  lemma BridgeStartsOneHopBack(markets: seq<Market>, xlmUsd: real, hop: nat, leg: Leg)
    requires leg.market in markets && leg.From() in Layer(markets, xlmUsd, hop)
    ensures leg.To() in Layer(markets, xlmUsd, hop + 1)
  {
    hide Newly;
    LegPrices(markets, Layer(markets, xlmUsd, hop), leg);
  }

  /** What a hop newly finds comes over the chosen pool, from the hop before. */
  lemma NewAssetLeg(markets: seq<Market>, xlmUsd: real, hop: nat, asset: AssetId) returns (leg: Leg)
    requires asset in Layer(markets, xlmUsd, hop + 1) && asset !in Layer(markets, xlmUsd, hop)
    ensures var priced := Layer(markets, xlmUsd, hop);
            && Crosses(markets, priced.Keys, asset, leg)
            && leg.From() in priced && leg.To() == asset && leg.market in markets
            && Layer(markets, xlmUsd, hop + 1)[asset] == Implied(leg.Depth(), leg.Other(), priced[leg.From()])
    ensures hop > 0 ==> leg.From() !in Layer(markets, xlmUsd, hop - 1)
  {
    hide Newly, Choice, Bridge, Implied;
    var priced := Layer(markets, xlmUsd, hop);
    HopPicksFirstDeepest(markets, |markets|, priced, asset);
    var i := Choice(markets, |markets|, priced.Keys, asset).value;
    leg := Bridge(markets[i], priced.Keys).value;
    if hop > 0 && leg.From() in Layer(markets, xlmUsd, hop - 1) {
      BridgeStartsOneHopBack(markets, xlmUsd, hop - 1, leg);
    }
  }

  lemma ExtendDerivation(markets: seq<Market>, xlmUsd: real, front: seq<Leg>, leg: Leg, asset: AssetId)
    requires IsChain(markets, front, leg.From()) && Derives(markets, xlmUsd, front, leg.From())
    requires var priced := Layer(markets, xlmUsd, |front|);
             && asset !in priced && Crosses(markets, priced.Keys, asset, leg)
             && leg.From() in priced && leg.To() == asset && leg.market in markets
    requires var next := Layer(markets, xlmUsd, |front| + 1);
             && asset in next
             && next[asset] == Implied(leg.Depth(), leg.Other(), Layer(markets, xlmUsd, |front|)[leg.From()])
    ensures IsChain(markets, front + [leg], asset) && Derives(markets, xlmUsd, front + [leg], asset)
  {
    hide Implied, Ratio, Merge, Newly, Choice, Bridge, Crosses;
    var chain := front + [leg];
    assert chain[..|chain| - 1] == front && chain[|chain| - 1] == leg;
    RateTimes(leg, Layer(markets, xlmUsd, |front|)[leg.From()], Rate(front), Rate(chain), xlmUsd);
  }

  lemma {:induction false} FirstPricedAt(markets: seq<Market>, xlmUsd: real, hop: nat, asset: AssetId)
    returns (chain: seq<Leg>)
    requires asset in Layer(markets, xlmUsd, hop)
    requires hop > 0 ==> asset !in Layer(markets, xlmUsd, hop - 1)
    ensures |chain| == hop && IsChain(markets, chain, asset) && Derives(markets, xlmUsd, chain, asset)
  {
    hide Implied, Ratio, Merge, Newly, Choice, Bridge, Crosses;
    if hop == 0 {
      chain := [];
    } else {
      var leg := NewAssetLeg(markets, xlmUsd, hop - 1, asset);
      var front := FirstPricedAt(markets, xlmUsd, hop - 1, leg.From());
      ExtendDerivation(markets, xlmUsd, front, leg, asset);
      chain := front + [leg];
    }
  }

  /** The hop in which the search first prices `asset`. */
  lemma {:induction false} FirstHop(markets: seq<Market>, xlmUsd: real, hops: nat, asset: AssetId) returns (hop: nat)
    requires asset in Layer(markets, xlmUsd, hops)
    ensures hop <= hops && asset in Layer(markets, xlmUsd, hop)
    ensures hop > 0 ==> asset !in Layer(markets, xlmUsd, hop - 1)
  {
    hide Merge, Newly;
    if hops > 0 && asset in Layer(markets, xlmUsd, hops - 1) {
      hop := FirstHop(markets, xlmUsd, hops - 1, asset);
    } else {
      hop := hops;
    }
  }

  /** Completeness and soundness of the reach: an asset is priced within `hops`
      exactly when some chain of at most `hops` usable pools joins it to XLM. */
  lemma PricedIffReachable(markets: seq<Market>, xlmUsd: real, hops: nat, asset: AssetId)
    ensures asset in Layer(markets, xlmUsd, hops) <==>
            exists chain :: |chain| <= hops && IsChain(markets, chain, asset)
  {
    if asset in Layer(markets, xlmUsd, hops) {
      var hop := FirstHop(markets, xlmUsd, hops, asset);
      var chain := FirstPricedAt(markets, xlmUsd, hop, asset);
    }
    forall chain | |chain| <= hops && IsChain(markets, chain, asset)
      ensures asset in Layer(markets, xlmUsd, hops)
    {
      ChainPrices(markets, xlmUsd, chain, asset);
      LayerGrows(markets, xlmUsd, |chain|, hops);
    }
  }

  /** No chain is shorter than the hop in which its asset is first priced. */
  lemma FirstHopIsDistance(markets: seq<Market>, xlmUsd: real, hop: nat, asset: AssetId, other: seq<Leg>)
    requires hop > 0 ==> asset !in Layer(markets, xlmUsd, hop - 1)
    requires IsChain(markets, other, asset)
    ensures hop <= |other|
  {
    hide Merge, Newly, Crosses, Layer, IsChain;
    ChainPrices(markets, xlmUsd, other, asset);
    if |other| < hop {
      LayerGrows(markets, xlmUsd, |other|, hop - 1);
    }
  }

  ghost predicate Shortest(markets: seq<Market>, chain: seq<Leg>, asset: AssetId) {
    IsChain(markets, chain, asset) && forall other :: IsChain(markets, other, asset) ==> |chain| <= |other|
  }

  /** Every price comes from a shortest chain, and is exactly the XLM price times
      the chain's reserve ratios. */
  lemma PricedAlongShortestChain(markets: seq<Market>, xlmUsd: real, hops: nat, asset: AssetId)
    returns (chain: seq<Leg>)
    requires asset in Layer(markets, xlmUsd, hops)
    ensures |chain| <= hops && Shortest(markets, chain, asset) && Derives(markets, xlmUsd, chain, asset)
    ensures Layer(markets, xlmUsd, hops)[asset] == Rate(chain) * xlmUsd
  {
    hide Merge, Newly, Crosses;
    var hop := FirstHop(markets, xlmUsd, hops, asset);
    chain := FirstPricedAt(markets, xlmUsd, hop, asset);
    forall other | IsChain(markets, other, asset)
      ensures |chain| <= |other|
    {
      FirstHopIsDistance(markets, xlmUsd, hop, asset, other);
    }
    PriceStands(markets, xlmUsd, hop, hops, asset, Rate(chain) * xlmUsd);
  }

  lemma PriceStands(markets: seq<Market>, xlmUsd: real, hop: nat, hops: nat, asset: AssetId, price: real)
    requires hop <= hops && asset in Layer(markets, xlmUsd, hop) && Layer(markets, xlmUsd, hop)[asset] == price
    ensures asset in Layer(markets, xlmUsd, hops) && Layer(markets, xlmUsd, hops)[asset] == price
  {
    LayerGrows(markets, xlmUsd, hop, hops);
  }

  // ---- symmetries ----

  ghost predicate SameUpToLegOrder(markets: seq<Market>, others: seq<Market>) {
    && |markets| == |others|
    && forall i :: 0 <= i < |markets| ==> others[i] == markets[i] || others[i] == markets[i].Swapped()
  }

  lemma {:induction false} NewlyIgnoresLegOrder(markets: seq<Market>, others: seq<Market>, n: nat, priced: Prices)
    requires SameUpToLegOrder(markets, others) && n <= |markets|
    ensures Newly(others, n, priced) == Newly(markets, n, priced)
  {
    if n > 0 {
      NewlyIgnoresLegOrder(markets, others, n - 1, priced);
      var market := markets[n - 1];
      if others[n - 1] == market.Swapped() {
        var there, back := Direction(market, true), Direction(market, false);
        var there', back' := Direction(market.Swapped(), true), Direction(market.Swapped(), false);
        assert there'.From() == back.From() && there'.To() == back.To() && there'.Usable() == back.Usable();
        assert back'.From() == there.From() && back'.To() == there.To() && back'.Usable() == there.Usable();
        var leg, leg' := Bridge(market, priced.Keys), Bridge(market.Swapped(), priced.Keys);
        if leg.Some? {
          assert QuoteOf(leg'.value, priced) == QuoteOf(leg.value, priced);
        }
      }
    }
  }

  /** Listing the legs of any pools the other way round changes no price. */
  lemma {:induction false} PricesIgnoreLegOrder(
      markets: seq<Market>, others: seq<Market>, xlmUsd: real, hops: nat)
    requires SameUpToLegOrder(markets, others)
    ensures Layer(others, xlmUsd, hops) == Layer(markets, xlmUsd, hops)
  {
    hide Newly, Merge;
    if hops > 0 {
      PricesIgnoreLegOrder(markets, others, xlmUsd, hops - 1);
      NewlyIgnoresLegOrder(markets, others, |markets|, Layer(markets, xlmUsd, hops - 1));
    }
  }

  ghost predicate Scaled(prices: Prices, factor: real, scaled: Prices) {
    scaled.Keys == prices.Keys && forall asset :: asset in prices ==> scaled[asset] == factor * prices[asset]
  }

  lemma ImpliedScales(known: real, other: real, price: real, factor: real)
    requires other != 0.0
    ensures Implied(known, other, factor * price) == factor * Implied(known, other, price)
  {
  }

  lemma NewlyScales(markets: seq<Market>, priced: Prices, scaled: Prices, factor: real, asset: AssetId)
    requires Scaled(priced, factor, scaled)
    ensures asset in Newly(markets, |markets|, priced) <==> asset in Newly(markets, |markets|, scaled)
    ensures asset in Newly(markets, |markets|, priced) ==>
              Newly(markets, |markets|, scaled)[asset].price == factor * Newly(markets, |markets|, priced)[asset].price
  {
    hide Implied, Newly, Picked;
    HopPicksFirstDeepest(markets, |markets|, priced, asset);
    HopPicksFirstDeepest(markets, |markets|, scaled, asset);
    PickScales(markets, priced, scaled, factor, asset);
  }

  lemma PickScales(markets: seq<Market>, priced: Prices, scaled: Prices, factor: real, asset: AssetId)
    requires Scaled(priced, factor, scaled)
    ensures var pick, pick' := Picked(markets, |markets|, priced, asset), Picked(markets, |markets|, scaled, asset);
            pick.Some? == pick'.Some? && (pick.Some? ==> pick'.value.price == factor * pick.value.price)
  {
    var i := Choice(markets, |markets|, priced.Keys, asset);
    if i.Some? {
      var leg := Bridge(markets[i.value], priced.Keys).value;
      ImpliedScales(leg.Depth(), leg.Other(), priced[leg.From()], factor);
    }
  }

  lemma MergeScales(priced: Prices, scaled: Prices, newly: map<AssetId, Best>, newly': map<AssetId, Best>, factor: real)
    requires Scaled(priced, factor, scaled) && newly'.Keys == newly.Keys
    requires forall asset :: asset in newly ==> newly'[asset].price == factor * newly[asset].price
    ensures Scaled(Merge(priced, newly), factor, Merge(scaled, newly'))
  {
  }

  lemma LayerScales(markets: seq<Market>, priced: Prices, scaled: Prices, factor: real)
    requires Scaled(priced, factor, scaled)
    ensures Scaled(Merge(priced, Newly(markets, |markets|, priced)), factor,
                   Merge(scaled, Newly(markets, |markets|, scaled)))
  {
    hide Newly, Implied, Scaled, Merge;
    var newly, newly' := Newly(markets, |markets|, priced), Newly(markets, |markets|, scaled);
    forall asset
      ensures asset in newly <==> asset in newly'
      ensures asset in newly ==> newly'[asset].price == factor * newly[asset].price
    {
      NewlyScales(markets, priced, scaled, factor, asset);
    }
    assert newly'.Keys == newly.Keys;
    MergeScales(priced, scaled, newly, newly', factor);
  }

  /** Multiplying the XLM price by any factor multiplies every price by it, and
      leaves the assets found, and the pools chosen for them, as they were. */
  lemma {:induction false} PricesScale(markets: seq<Market>, xlmUsd: real, factor: real, hops: nat)
    ensures Scaled(Layer(markets, xlmUsd, hops), factor, Layer(markets, factor * xlmUsd, hops))
    ensures forall asset ::
              Choice(markets, |markets|, Layer(markets, factor * xlmUsd, hops).Keys, asset)
              == Choice(markets, |markets|, Layer(markets, xlmUsd, hops).Keys, asset)
  {
    if hops > 0 {
      PricesScale(markets, xlmUsd, factor, hops - 1);
      LayerScales(markets, Layer(markets, xlmUsd, hops - 1), Layer(markets, factor * xlmUsd, hops - 1), factor);
    }
  }

  lemma {:induction false} RatePositive(markets: seq<Market>, chain: seq<Leg>, asset: AssetId)
    requires IsChain(markets, chain, asset)
    requires forall m :: m in markets ==> m.reserveA > 0.0 && m.reserveB > 0.0
    ensures Rate(chain) > 0.0
  {
    if chain != [] {
      var leg := chain[|chain| - 1];
      RatePositive(markets, chain[..|chain| - 1], leg.From());
      assert Ratio(leg) > 0.0;
    }
  }

  /** Positive reserves and a positive XLM price make every price positive. */
  lemma PricesArePositive(markets: seq<Market>, xlmUsd: real, hops: nat, asset: AssetId)
    requires forall m :: m in markets ==> m.reserveA > 0.0 && m.reserveB > 0.0
    requires xlmUsd > 0.0 && asset in Layer(markets, xlmUsd, hops)
    ensures Layer(markets, xlmUsd, hops)[asset] > 0.0
  {
    hide Layer, Derives;
    var chain := PricedAlongShortestChain(markets, xlmUsd, hops, asset);
    RatePositive(markets, chain, asset);
  }

  // ---- the cycle's price step ----

  /** The pools with two legs whose amounts both parse, in feed order. */
  function ParsedReserves(feed: seq<seq<PoolReserve>>): seq<Pool> {
    if feed == [] then []
    else
      var (reserves, rest) := (feed[0], ParsedReserves(feed[1..]));
      if |reserves| < 2 || reserves[0].amount.None? || reserves[1].amount.None? then rest
      else [Pool(reserves[0].asset, reserves[0].amount.value, reserves[1].asset, reserves[1].amount.value)] + rest
  }

  function Resolved(pools: seq<Pool>): seq<Market> {
    seq(|pools|, i requires 0 <= i < |pools| => Resolve(pools[i]))
  }

  datatype PriceRow = PriceRow(time: int, asset: AssetId, price: real, source: string)

  class PriceTable {
    var rows: seq<PriceRow>

    constructor ()
      ensures rows == []
    {
      rows := [];
    }

    method InsertAssetPrice(row: PriceRow)
      modifies this
      ensures rows == old(rows) + [row]
    {
      rows := rows + [row];
    }
  }

  /** `added` records every asset of `found`, and only those, each exactly once. */
  ghost predicate RecordsOnce(added: seq<PriceRow>, found: set<AssetId>) {
    && (forall i, j :: 0 <= i < j < |added| ==> added[i].asset != added[j].asset)
    && (forall i :: 0 <= i < |added| ==> added[i].asset in found)
    && (forall asset :: asset in found ==> exists i :: 0 <= i < |added| && added[i].asset == asset)
  }

  function SourceOf(markets: seq<Market>, xlmUsd: real, asset: AssetId): string {
    if asset == NATIVE then "coingecko"
    else if asset in Layer(markets, xlmUsd, 1) then "xlm_pool_ratio"
    else "multi_hop_pool_ratio"
  }

  /** The rows one cycle adds after `hops` hops: every priced asset once, at its
      price, tagged by whether it trades directly against XLM. */
  ghost predicate CycleRows(added: seq<PriceRow>, now: int, markets: seq<Market>, xlmUsd: real, hops: nat) {
    && RecordsOnce(added, Layer(markets, xlmUsd, hops).Keys)
    && forall i :: 0 <= i < |added| ==>
         added[i] == PriceRow(now, added[i].asset, Layer(markets, xlmUsd, hops)[added[i].asset],
                              SourceOf(markets, xlmUsd, added[i].asset))
  }

  /** Tries every known asset on one pool, in whatever order the map yields them. */
  method TryPool(pool: Pool, priced: Prices, newly: map<AssetId, Best>) returns (r: map<AssetId, Best>)
    ensures r == match Bridge(Resolve(pool), priced.Keys)
                 case None => newly
                 case Some(leg) => Offer(newly, QuoteOf(leg, priced))
  {
    ghost var bridge := Bridge(Resolve(pool), priced.Keys);
    ghost var offered := if bridge.Some? then Offer(newly, QuoteOf(bridge.value, priced)) else newly;
    r := newly;
    var rest := priced.Keys;
    while rest != {}
      invariant rest <= priced.Keys
      invariant r == if bridge.Some? && bridge.value.From() !in rest then offered else newly
      decreases |rest|
    {
      var known :| known in rest;
      rest := rest - {known};
      PoolYieldsOneQuote(pool, priced, known);
      var quote := PriceFromKnownLeg(pool, known, priced[known]);
      if quote.Some? && quote.value.asset !in priced {
        r := Offer(r, quote.value);
      }
    }
  }

  method FindNewly(pools: seq<Pool>, priced: Prices) returns (newly: map<AssetId, Best>)
    ensures newly == Newly(Resolved(pools), |pools|, priced)
  {
    newly := map[];
    for n := 0 to |pools|
      invariant newly == Newly(Resolved(pools), n, priced)
    {
      newly := TryPool(pools[n], priced, newly);
    }
  }

  /** The rows a hop writes for the finds in `done`. */
  ghost predicate HopRows(added: seq<PriceRow>, now: int, source: string, newly: map<AssetId, Best>, done: set<AssetId>)
    requires done <= newly.Keys
  {
    && RecordsOnce(added, done)
    && forall i :: 0 <= i < |added| ==>
         added[i] == PriceRow(now, added[i].asset, newly[added[i].asset].price, source)
  }

  lemma RecordOneMore(added: seq<PriceRow>, found: set<AssetId>, row: PriceRow)
    requires RecordsOnce(added, found) && row.asset !in found
    ensures RecordsOnce(added + [row], found + {row.asset})
  {
    var more := added + [row];
    forall asset | asset in found + {row.asset}
      ensures exists i :: 0 <= i < |more| && more[i].asset == asset
    {
      if asset == row.asset {
        assert more[|added|].asset == asset;
      } else {
        var i :| 0 <= i < |added| && added[i].asset == asset;
        assert more[i].asset == asset;
      }
    }
  }

  lemma HopRowsOneMore(added: seq<PriceRow>, now: int, source: string, newly: map<AssetId, Best>,
                       done: set<AssetId>, asset: AssetId)
    requires done <= newly.Keys && asset in newly.Keys - done
    requires HopRows(added, now, source, newly, done)
    ensures HopRows(added + [PriceRow(now, asset, newly[asset].price, source)], now, source, newly, done + {asset})
  {
    RecordOneMore(added, done, PriceRow(now, asset, newly[asset].price, source));
  }

  function MergeDone(priced: Prices, newly: map<AssetId, Best>, done: set<AssetId>): Prices
    requires done <= newly.Keys
  {
    priced + (map asset | asset in done :: newly[asset].price)
  }

  lemma MergeOneMore(priced: Prices, newly: map<AssetId, Best>, done: set<AssetId>, asset: AssetId)
    requires done <= newly.Keys && asset in newly.Keys - done && newly.Keys !! priced.Keys
    ensures MergeDone(priced, newly, done + {asset}) == MergeDone(priced, newly, done)[asset := newly[asset].price]
  {
  }

  lemma AllMerged(priced: Prices, newly: map<AssetId, Best>)
    ensures MergeDone(priced, newly, newly.Keys) == Merge(priced, newly)
  {
  }

  lemma NothingRecordedYet(now: int, source: string, priced: Prices, newly: map<AssetId, Best>)
    ensures HopRows([], now, source, newly, {})
    ensures MergeDone(priced, newly, {}) == priced
  {
  }

  /** Writes one hop's finds and adds them to the known prices, in whatever order
      the map yields them. */
  method RecordHop(table: PriceTable, now: int, source: string, priced: Prices, newly: map<AssetId, Best>)
    returns (merged: Prices, ghost added: seq<PriceRow>)
    requires newly.Keys !! priced.Keys
    modifies table
    ensures merged == Merge(priced, newly)
    ensures table.rows == old(table.rows) + added && HopRows(added, now, source, newly, newly.Keys)
  {
    hide HopRows, RecordsOnce, MergeDone, Merge;
    merged := priced;
    added := [];
    NothingRecordedYet(now, source, priced, newly);
    var rest := newly.Keys;
    ghost var done: set<AssetId> := {};
    while rest != {}
      invariant rest !! done && rest + done == newly.Keys
      invariant table.rows == old(table.rows) + added && HopRows(added, now, source, newly, done)
      invariant merged == MergeDone(priced, newly, done)
      decreases |rest|
    {
      var asset :| asset in rest;
      HopRowsOneMore(added, now, source, newly, done, asset);
      MergeOneMore(priced, newly, done, asset);
      var row := PriceRow(now, asset, newly[asset].price, source);
      table.InsertAssetPrice(row);
      added := added + [row];
      merged := merged[asset := newly[asset].price];
      rest := rest - {asset};
      done := done + {asset};
    }
    assert done == newly.Keys;
    AllMerged(priced, newly);
  }

  lemma RecordsUnion(rows: seq<PriceRow>, found: set<AssetId>, added: seq<PriceRow>, more: set<AssetId>)
    requires RecordsOnce(rows, found) && RecordsOnce(added, more) && found !! more
    ensures RecordsOnce(rows + added, found + more)
  {
    var all := rows + added;
    forall asset | asset in found + more
      ensures exists i :: 0 <= i < |all| && all[i].asset == asset
    {
      if asset in found {
        var i :| 0 <= i < |rows| && rows[i].asset == asset;
        assert all[i].asset == asset;
      } else {
        var i :| 0 <= i < |added| && added[i].asset == asset;
        assert all[|rows| + i].asset == asset;
      }
    }
  }

  function SourceAt(hop: nat): string {
    if hop == 0 then "xlm_pool_ratio" else "multi_hop_pool_ratio"
  }

  /** What one hop writes continues the cycle's rows. */
  lemma CycleOneMoreHop(rows: seq<PriceRow>, added: seq<PriceRow>, now: int, markets: seq<Market>, xlmUsd: real,
                        hop: nat)
    requires CycleRows(rows, now, markets, xlmUsd, hop)
    requires var newly := Newly(markets, |markets|, Layer(markets, xlmUsd, hop));
             HopRows(added, now, SourceAt(hop), newly, newly.Keys)
    ensures CycleRows(rows + added, now, markets, xlmUsd, hop + 1)
  {
    hide Newly, RecordsOnce, SourceOf;
    var priced := Layer(markets, xlmUsd, hop);
    var newly := Newly(markets, |markets|, priced);
    var next := Layer(markets, xlmUsd, hop + 1);
    RecordsUnion(rows, priced.Keys, added, newly.Keys);
    assert next.Keys == priced.Keys + newly.Keys;
    forall asset | asset in newly
      ensures SourceAt(hop) == SourceOf(markets, xlmUsd, asset)
    {
      SourceTellsHop(markets, xlmUsd, hop, asset);
    }
    forall i | 0 <= i < |rows + added|
      ensures (rows + added)[i] == PriceRow(now, (rows + added)[i].asset, next[(rows + added)[i].asset],
                                            SourceOf(markets, xlmUsd, (rows + added)[i].asset))
    {
      InCycle(rows, priced.Keys);
      InCycle(added, newly.Keys);
      assert i < |rows| ==> rows[i].asset in priced;
      assert i >= |rows| ==> added[i - |rows|].asset in newly;
    }
  }

  lemma InCycle(rows: seq<PriceRow>, found: set<AssetId>)
    requires RecordsOnce(rows, found)
    ensures forall i :: 0 <= i < |rows| ==> rows[i].asset in found
  {
  }

  lemma SourceTellsHop(markets: seq<Market>, xlmUsd: real, hop: nat, asset: AssetId)
    requires asset in Newly(markets, |markets|, Layer(markets, xlmUsd, hop))
    ensures SourceAt(hop) == SourceOf(markets, xlmUsd, asset)
  {
    hide Newly;
    if hop == 0 {
      assert Layer(markets, xlmUsd, 1)
             == Merge(Layer(markets, xlmUsd, 0), Newly(markets, |markets|, Layer(markets, xlmUsd, 0)));
    } else {
      LayerGrows(markets, xlmUsd, 1, hop);
    }
  }

  lemma LayerSteps(markets: seq<Market>, xlmUsd: real, hop: nat)
    ensures Layer(markets, xlmUsd, 0) == map[NATIVE := xlmUsd]
    ensures Layer(markets, xlmUsd, hop + 1)
            == Merge(Layer(markets, xlmUsd, hop), Newly(markets, |markets|, Layer(markets, xlmUsd, hop)))
  {
    hide Newly, Merge;
  }

  lemma ResolvedLength(pools: seq<Pool>)
    ensures |Resolved(pools)| == |pools|
  {
  }

  lemma CycleStarts(now: int, markets: seq<Market>, xlmUsd: real)
    ensures CycleRows([PriceRow(now, NATIVE, xlmUsd, "coingecko")], now, markets, xlmUsd, 0)
  {
    var rows := [PriceRow(now, NATIVE, xlmUsd, "coingecko")];
    assert rows[0].asset == NATIVE;
  }

  lemma CycleSameLayer(rows: seq<PriceRow>, now: int, markets: seq<Market>, xlmUsd: real, hops: nat, more: nat)
    requires CycleRows(rows, now, markets, xlmUsd, hops)
    requires Layer(markets, xlmUsd, more) == Layer(markets, xlmUsd, hops)
    ensures CycleRows(rows, now, markets, xlmUsd, more)
  {
  }

  /** The hops: each records what it newly found, until one finds nothing. */
  method SearchHops(table: PriceTable, now: int, usd: real, pools: seq<Pool>) returns (ghost added: seq<PriceRow>)
    modifies table
    ensures table.rows == old(table.rows) + added
    ensures CycleRows([PriceRow(now, NATIVE, usd, "coingecko")] + added, now, Resolved(pools), usd, MAX_PRICE_HOPS)
  {
    hide Layer, Newly, Merge, CycleRows, HopRows, Resolved;
    ghost var markets := Resolved(pools);
    ghost var rows := [PriceRow(now, NATIVE, usd, "coingecko")];
    ResolvedLength(pools);
    LayerSteps(markets, usd, 0);
    CycleStarts(now, markets, usd);
    var priced: Prices := map[NATIVE := usd];
    added := [];
    assert rows + [] == rows;
    for hop := 0 to MAX_PRICE_HOPS
      invariant priced == Layer(markets, usd, hop)
      invariant table.rows == old(table.rows) + added && CycleRows(rows + added, now, markets, usd, hop)
    {
      var newly := FindNewly(pools, priced);
      if newly == map[] {
        EmptyHopIsFinal(markets, usd, hop, MAX_PRICE_HOPS);
        CycleSameLayer(rows + added, now, markets, usd, hop, MAX_PRICE_HOPS);
        return;
      }
      var source := if hop == 0 then "xlm_pool_ratio" else "multi_hop_pool_ratio";
      ghost var more;
      priced, more := RecordHop(table, now, source, priced, newly);
      CycleOneMoreHop(rows + added, more, now, markets, usd, hop);
      LayerSteps(markets, usd, hop);
      assert rows + added + more == rows + (added + more);
      added := added + more;
    }
  }

  /** One cycle's price step. When the feed answers, the table gains exactly one
      row per asset reachable from XLM in at most `MAX_PRICE_HOPS` hops, at the
      specified price; the result does not depend on any map's iteration order.
      When it does not, nothing is written. */
  method IngestPrices(table: PriceTable, now: int, xlmUsd: Option<real>, feed: seq<seq<PoolReserve>>)
    returns (r: Result<(), string>)
    modifies table
    ensures r.Success? <==> xlmUsd.Some?
    ensures r.Failure? ==> table.rows == old(table.rows)
    ensures r.Success? ==>
              && |old(table.rows)| <= |table.rows| && table.rows[..|old(table.rows)|] == old(table.rows)
              && CycleRows(table.rows[|old(table.rows)|..], now, Resolved(ParsedReserves(feed)), xlmUsd.value,
                           MAX_PRICE_HOPS)
  {
    hide CycleRows, ParsedReserves, Resolved;
    if xlmUsd.None? {
      return Failure("price feed unavailable");
    }
    var first := PriceRow(now, NATIVE, xlmUsd.value, "coingecko");
    table.InsertAssetPrice(first);
    ghost var added := SearchHops(table, now, xlmUsd.value, ParsedReserves(feed));
    assert table.rows == old(table.rows) + ([first] + added);
    return Success(());
  }

  /** What a cycle's rows mean: an asset has a row exactly when some chain of at
      most four usable pools joins it to XLM, and the row's price is the XLM price
      times the reserve ratios along a shortest such chain. */
  lemma CyclePricesExplained(added: seq<PriceRow>, now: int, markets: seq<Market>, xlmUsd: real, asset: AssetId)
    requires CycleRows(added, now, markets, xlmUsd, MAX_PRICE_HOPS)
    ensures (exists i :: 0 <= i < |added| && added[i].asset == asset)
            <==> (exists chain :: |chain| <= MAX_PRICE_HOPS && IsChain(markets, chain, asset))
    ensures forall i :: 0 <= i < |added| && added[i].asset == asset ==>
              exists chain :: |chain| <= MAX_PRICE_HOPS && Shortest(markets, chain, asset)
                && added[i].price == Rate(chain) * xlmUsd
  {
    hide Layer, IsChain, Shortest, Derives, SourceOf;
    PricedIffReachable(markets, xlmUsd, MAX_PRICE_HOPS, asset);
    InCycle(added, Layer(markets, xlmUsd, MAX_PRICE_HOPS).Keys);
    if asset in Layer(markets, xlmUsd, MAX_PRICE_HOPS) {
      var chain := PricedAlongShortestChain(markets, xlmUsd, MAX_PRICE_HOPS, asset);
    }
  }
}
