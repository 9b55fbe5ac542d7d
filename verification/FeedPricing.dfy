/** What a cycle's prices are in terms of the feed itself (`ingest_prices`,
    src/bin/ingest.rs): the pools Horizon lists, in the order and with the amounts
    it lists them, with nothing of the search or of its data structures. */
module FeedPricing {
  import opened Pricing
  import opened PriceDiscovery

  type Feed = seq<seq<PoolReserve>>

  /** The listing has two legs whose amounts both parse. */
  ghost predicate Listed(feed: Feed, i: nat) {
    i < |feed| && |feed[i]| >= 2 && feed[i][0].amount.Some? && feed[i][1].amount.Some?
  }

  /** A listing read from one of its first two legs, whose price is known, to the other. */
  datatype Trade = Trade(listing: nat, known: nat)

  ghost predicate Names(feed: Feed, t: Trade) { Listed(feed, t.listing) && t.known <= 1 }

  ghost function Known(feed: Feed, t: Trade): AssetId
    requires Names(feed, t)
  {
    ParsePoolAsset(feed[t.listing][t.known].asset)
  }

  ghost function Priced(feed: Feed, t: Trade): AssetId
    requires Names(feed, t)
  {
    ParsePoolAsset(feed[t.listing][1 - t.known].asset)
  }

  /** The amount on the known side. */
  ghost function Depth(feed: Feed, t: Trade): real
    requires Names(feed, t)
  {
    feed[t.listing][t.known].amount.value
  }

  ghost function Across(feed: Feed, t: Trade): real
    requires Names(feed, t)
  {
    feed[t.listing][1 - t.known].amount.value
  }

  /** The trade gives a price: its assets differ and there is something on the far side. */
  ghost predicate IsTrade(feed: Feed, t: Trade) {
    Names(feed, t) && Known(feed, t) != Priced(feed, t) && Across(feed, t) != 0.0
  }

  /** These trades lead from XLM to the asset. */
  ghost predicate Leads(feed: Feed, trades: seq<Trade>, asset: AssetId) {
    if trades == [] then asset == AssetId("XLM", "")
    else
      var t := trades[|trades| - 1];
      IsTrade(feed, t) && Priced(feed, t) == asset && Leads(feed, trades[..|trades| - 1], Known(feed, t))
  }

  ghost predicate Reached(feed: Feed, hops: nat, asset: AssetId) {
    exists trades :: |trades| <= hops && Leads(feed, trades, asset)
  }

  /** Of all trades pricing this asset from one reached within `hops`, this is the
      deepest, and the first listed of those as deep. */
  ghost predicate Preferred(feed: Feed, hops: nat, t: Trade)
    requires IsTrade(feed, t)
  {
    forall other | && IsTrade(feed, other) && Priced(feed, other) == Priced(feed, t)
                   && Reached(feed, hops, Known(feed, other)) ::
      || Depth(feed, other) < Depth(feed, t)
      || (Depth(feed, other) == Depth(feed, t) && t.listing <= other.listing)
  }

  /** Hop by hop, each asset is priced as early as it can be, over the preferred trade. */
  ghost predicate Greedy(feed: Feed, trades: seq<Trade>, asset: AssetId) {
    if trades == [] then asset == AssetId("XLM", "")
    else
      var n := |trades| - 1;
      var t := trades[n];
      && IsTrade(feed, t) && Priced(feed, t) == asset && !Reached(feed, n, asset)
      && Preferred(feed, n, t) && Greedy(feed, trades[..n], Known(feed, t))
  }

  /** The product of the listed amounts' ratios along the trades. */
  ghost function TradeRate(feed: Feed, trades: seq<Trade>, asset: AssetId): real
    requires Leads(feed, trades, asset)
  {
    if trades == [] then 1.0
    else
      var t := trades[|trades| - 1];
      Depth(feed, t) / Across(feed, t) * TradeRate(feed, trades[..|trades| - 1], Known(feed, t))
  }

  lemma {:induction false} GreedyLeads(feed: Feed, trades: seq<Trade>, asset: AssetId)
    requires Greedy(feed, trades, asset)
    ensures Leads(feed, trades, asset)
  {
    hide Names, Reached, Preferred;
    if trades != [] {
      var n := |trades| - 1;
      GreedyLeads(feed, trades[..n], Known(feed, trades[n]));
    }
  }

  /** No trades lead there in fewer hops. */
  lemma GreedyIsShortest(feed: Feed, trades: seq<Trade>, asset: AssetId, other: seq<Trade>)
    requires Greedy(feed, trades, asset) && Leads(feed, other, asset)
    ensures |trades| <= |other|
  {
    hide Names, Preferred, Leads;
  }

  /** There is only one such way to an asset, so its price follows from the feed. */
  lemma {:induction false} GreedyUnique(feed: Feed, one: seq<Trade>, other: seq<Trade>, asset: AssetId)
    requires Greedy(feed, one, asset) && Greedy(feed, other, asset)
    ensures one == other
  {
    hide Names, Known, Leads, Greedy;
    SameLength(feed, one, other, asset);
    if one != [] {
      var n := |one| - 1;
      SameLast(feed, one, other, asset);
      GreedyFront(feed, one, asset);
      GreedyFront(feed, other, asset);
      GreedyUnique(feed, one[..n], other[..n], Known(feed, one[n]));
      assert one == one[..n] + [one[n]] && other == other[..n] + [other[n]];
    }
  }

  lemma SameLength(feed: Feed, one: seq<Trade>, other: seq<Trade>, asset: AssetId)
    requires Greedy(feed, one, asset) && Greedy(feed, other, asset)
    ensures |one| == |other|
  {
    hide Greedy, Leads;
    GreedyLeads(feed, one, asset);
    GreedyLeads(feed, other, asset);
    GreedyIsShortest(feed, one, asset, other);
    GreedyIsShortest(feed, other, asset, one);
  }

  lemma GreedyFront(feed: Feed, trades: seq<Trade>, asset: AssetId)
    requires Greedy(feed, trades, asset) && trades != []
    ensures Names(feed, trades[|trades| - 1]) && Greedy(feed, trades[..|trades| - 1], Known(feed, trades[|trades| - 1]))
  {
    hide Names, Reached, Preferred;
  }

  lemma SameLast(feed: Feed, one: seq<Trade>, other: seq<Trade>, asset: AssetId)
    requires Greedy(feed, one, asset) && Greedy(feed, other, asset) && |one| == |other| > 0
    ensures one[|one| - 1] == other[|other| - 1]
  {
    hide Names, Reached, Preferred, Leads;
    var n := |one| - 1;
    GreedyReaches(feed, one[..n], Known(feed, one[n]));
    GreedyReaches(feed, other[..n], Known(feed, other[n]));
    SameTrade(feed, n, one[n], other[n]);
  }

  lemma GreedyReaches(feed: Feed, trades: seq<Trade>, asset: AssetId)
    requires Greedy(feed, trades, asset)
    ensures Reached(feed, |trades|, asset)
  {
    hide Greedy, Leads;
    GreedyLeads(feed, trades, asset);
  }

  lemma SameTrade(feed: Feed, hops: nat, one: Trade, other: Trade)
    requires IsTrade(feed, one) && IsTrade(feed, other) && Priced(feed, one) == Priced(feed, other)
    requires Preferred(feed, hops, one) && Preferred(feed, hops, other)
    requires Reached(feed, hops, Known(feed, one)) && Reached(feed, hops, Known(feed, other))
    ensures one == other
  {
    hide Reached;
  }

  // ---- the pools the search works on are the listings ----

  /** The market has leg 0's asset and amount on one side, leg 1's on the other. */
  ghost predicate IsMarketOf(reserves: seq<PoolReserve>, market: Market) {
    && |reserves| >= 2
    && ParsePoolAsset(reserves[0].asset) == market.idA && reserves[0].amount.Some?
    && reserves[0].amount.value == market.reserveA
    && ParsePoolAsset(reserves[1].asset) == market.idB && reserves[1].amount.Some?
    && reserves[1].amount.value == market.reserveB
  }

  /** `at` lists where the markets stand in the feed. */
  ghost predicate Places(feed: Feed, markets: seq<Market>, at: seq<nat>) {
    && |at| == |markets|
    && (forall i, j :: 0 <= i < j < |at| ==> at[i] < at[j])
    && (forall k: nat :: k in at <==> Listed(feed, k))
    && forall i :: 0 <= i < |at| ==> Listed(feed, at[i]) && IsMarketOf(feed[at[i]], markets[i])
  }

  /** The pools searched are exactly the listings with two parsed legs, each once and
      in feed order, with the assets and amounts listed. */
  lemma {:induction false} PoolsAreListings(feed: Feed) returns (at: seq<nat>)
    ensures Places(feed, Resolved(ParsedReserves(feed)), at)
  {
    hide ParsePoolAsset, IsMarketOf, Resolved;
    if feed == [] {
      at := [];
      NoPools();
    } else {
      hide ParsedReserves, Places;
      var rest := PoolsAreListings(feed[1..]);
      FirstPool(feed);
      at := PlacesOneMore(feed, Resolved(ParsedReserves(feed)), Resolved(ParsedReserves(feed[1..])), rest);
    }
  }

  lemma NoPools()
    ensures Resolved(ParsedReserves([])) == []
  {
  }

  /** One listing in front, searched or not. */
  lemma PlacesOneMore(feed: Feed, markets: seq<Market>, later: seq<Market>, rest: seq<nat>) returns (at: seq<nat>)
    requires feed != [] && Places(feed[1..], later, rest)
    requires if Listed(feed, 0) then
               |markets| == |later| + 1 && IsMarketOf(feed[0], markets[0]) && markets[1..] == later
             else markets == later
    ensures Places(feed, markets, at)
  {
    at := PlacesMoved(feed, later, rest);
    if Listed(feed, 0) {
      at := PlacesInFront(feed, markets, later, at);
    }
  }

  lemma PlacesInFront(feed: Feed, markets: seq<Market>, later: seq<Market>, moved: seq<nat>) returns (at: seq<nat>)
    requires feed != [] && Listed(feed, 0)
    requires |markets| == |later| + 1 && IsMarketOf(feed[0], markets[0]) && markets[1..] == later
    requires |moved| == |later| && forall i, j :: 0 <= i < j < |moved| ==> moved[i] < moved[j]
    requires forall k: nat :: k in moved <==> k > 0 && Listed(feed, k)
    requires forall i :: 0 <= i < |moved| ==>
               0 < moved[i] < |feed| && Listed(feed, moved[i]) && IsMarketOf(feed[moved[i]], later[i])
    ensures Places(feed, markets, at)
  {
    at := [0] + moved;
    InFront(moved, 0);
    AscendsInFront(moved);
    MarketsInFront(feed, markets, later, moved);
  }

  lemma AscendsInFront(moved: seq<nat>)
    requires forall i, j :: 0 <= i < j < |moved| ==> moved[i] < moved[j]
    requires forall i :: 0 <= i < |moved| ==> 0 < moved[i]
    ensures var at := [0] + moved;
            forall i, j :: 0 <= i < j < |at| ==> at[i] < at[j]
  {
  }

  lemma MarketsInFront(feed: Feed, markets: seq<Market>, later: seq<Market>, moved: seq<nat>)
    requires feed != [] && Listed(feed, 0) && |moved| == |later|
    requires |markets| == |later| + 1 && IsMarketOf(feed[0], markets[0]) && markets[1..] == later
    requires forall i :: 0 <= i < |moved| ==>
               0 < moved[i] < |feed| && Listed(feed, moved[i]) && IsMarketOf(feed[moved[i]], later[i])
    ensures var at := [0] + moved;
            forall i :: 0 <= i < |at| ==> Listed(feed, at[i]) && IsMarketOf(feed[at[i]], markets[i])
  {
    hide IsMarketOf;
    assert forall i :: 0 < i < |markets| ==> markets[i] == later[i - 1];
  }

  lemma InFront(rest: seq<nat>, first: nat)
    ensures forall k: nat :: k in [first] + rest <==> k == first || k in rest
  {
  }

  /** The places of the listings after the first. */
  lemma PlacesMoved(feed: Feed, later: seq<Market>, rest: seq<nat>) returns (moved: seq<nat>)
    requires feed != [] && Places(feed[1..], later, rest)
    ensures |moved| == |later| && forall i, j :: 0 <= i < j < |moved| ==> moved[i] < moved[j]
    ensures forall k: nat :: k in moved <==> k > 0 && Listed(feed, k)
    ensures forall i :: 0 <= i < |moved| ==>
              0 < moved[i] < |feed| && Listed(feed, moved[i]) && IsMarketOf(feed[moved[i]], later[i])
  {
    hide IsMarketOf;
    moved := seq(|rest|, i requires 0 <= i < |rest| => rest[i] + 1);
    LaterPlaces(feed, rest, moved);
  }

  lemma FirstPool(feed: Feed)
    requires feed != []
    ensures var (markets, rest) := (Resolved(ParsedReserves(feed)), Resolved(ParsedReserves(feed[1..])));
            if Listed(feed, 0) then |markets| == |rest| + 1 && IsMarketOf(feed[0], markets[0]) && markets[1..] == rest
            else markets == rest
  {
    hide ParsePoolAsset;
  }

  lemma LaterPlaces(feed: Feed, rest: seq<nat>, later: seq<nat>)
    requires feed != [] && later == seq(|rest|, i requires 0 <= i < |rest| => rest[i] + 1)
    requires forall k: nat :: k in rest <==> Listed(feed[1..], k)
    ensures forall k: nat :: k in later <==> k > 0 && Listed(feed, k)
  {
    forall k: nat
      ensures k in later <==> k > 0 && Listed(feed, k)
    {
      if k > 0 && Listed(feed, k) {
        assert Listed(feed[1..], k - 1);
        var i :| 0 <= i < |rest| && rest[i] == k - 1;
        assert later[i] == k;
      }
      if k in later {
        var i :| 0 <= i < |later| && later[i] == k;
        assert rest[i] in rest;
      }
    }
  }

  // ---- the search's legs and chains are trades ----

  lemma TradeIsLeg(feed: Feed, markets: seq<Market>, at: seq<nat>, t: Trade) returns (j: nat, leg: Leg)
    requires Places(feed, markets, at) && IsTrade(feed, t)
    ensures j < |at| && at[j] == t.listing && leg.market == markets[j]
    ensures leg.From() == Known(feed, t) && leg.To() == Priced(feed, t)
    ensures leg.Depth() == Depth(feed, t) && leg.Other() == Across(feed, t)
  {
    hide ParsePoolAsset;
    assert t.listing in at;
    j :| j < |at| && at[j] == t.listing;
    leg := Direction(markets[j], t.known == 0);
  }

  lemma LegIsTrade(feed: Feed, markets: seq<Market>, at: seq<nat>, j: nat, leg: Leg) returns (t: Trade)
    requires Places(feed, markets, at) && j < |at| && leg.market == markets[j]
    ensures IsTrade(feed, t) && t.listing == at[j]
    ensures leg.From() == Known(feed, t) && leg.To() == Priced(feed, t)
    ensures leg.Depth() == Depth(feed, t) && leg.Other() == Across(feed, t)
  {
    hide ParsePoolAsset;
    t := Trade(at[j], if leg.forward then 0 else 1);
  }

  lemma {:induction false} TradesAreChain(feed: Feed, markets: seq<Market>, at: seq<nat>, trades: seq<Trade>,
                                          asset: AssetId)
    returns (chain: seq<Leg>)
    requires Places(feed, markets, at) && Leads(feed, trades, asset)
    ensures |chain| == |trades| && IsChain(markets, chain, asset)
  {
    hide Places, Names;
    if trades == [] {
      chain := [];
    } else {
      var n := |trades| - 1;
      var front := TradesAreChain(feed, markets, at, trades[..n], Known(feed, trades[n]));
      var j, leg := TradeIsLeg(feed, markets, at, trades[n]);
      PlacesLength(feed, markets, at);
      chain := front + [leg];
      assert chain[..n] == front;
    }
  }

  lemma PlacesLength(feed: Feed, markets: seq<Market>, at: seq<nat>)
    requires Places(feed, markets, at)
    ensures |at| == |markets|
  {
  }

  lemma {:induction false} ChainIsTrades(feed: Feed, markets: seq<Market>, at: seq<nat>, chain: seq<Leg>,
                                         asset: AssetId)
    returns (trades: seq<Trade>)
    requires Places(feed, markets, at) && IsChain(markets, chain, asset)
    ensures |trades| == |chain| && Leads(feed, trades, asset)
  {
    hide Places, Names;
    if chain == [] {
      trades := [];
    } else {
      var n := |chain| - 1;
      var front := ChainIsTrades(feed, markets, at, chain[..n], chain[n].From());
      PlacesLength(feed, markets, at);
      var j: nat :| j < |markets| && markets[j] == chain[n].market;
      var t := LegIsTrade(feed, markets, at, j, chain[n]);
      trades := front + [t];
      assert trades[..n] == front;
    }
  }

  /** What the feed reaches within `hops` is what the search prices. */
  lemma ReachedIffPriced(feed: Feed, markets: seq<Market>, at: seq<nat>, xlmUsd: real, hops: nat, asset: AssetId)
    requires Places(feed, markets, at)
    ensures Reached(feed, hops, asset) <==> asset in Layer(markets, xlmUsd, hops)
  {
    hide Places, Layer, Leads, IsChain;
    PricedIffReachable(markets, xlmUsd, hops, asset);
    if trades :| |trades| <= hops && Leads(feed, trades, asset) {
      var chain := TradesAreChain(feed, markets, at, trades, asset);
    }
    if chain :| |chain| <= hops && IsChain(markets, chain, asset) {
      var trades := ChainIsTrades(feed, markets, at, chain, asset);
    }
  }

  /** A leg out of the known assets into an unknown one is how its pool reaches it. */
  lemma LegReaches(leg: Leg, known: set<AssetId>)
    requires leg.From() in known && leg.To() !in known
    ensures Reaches(leg.market, known, leg.To()) && DepthTo(leg.market, known, leg.To()) == leg.Depth()
  {
    assert leg == Direction(leg.market, leg.forward);
  }

  /** The leg a hop crosses is the preferred trade. */
  lemma CrossedIsPreferred(feed: Feed, markets: seq<Market>, at: seq<nat>, xlmUsd: real, hops: nat, asset: AssetId,
                           leg: Leg)
    returns (t: Trade)
    requires Places(feed, markets, at)
    requires var known := Layer(markets, xlmUsd, hops).Keys;
             asset !in known && Crosses(markets, known, asset, leg)
    ensures IsTrade(feed, t) && Preferred(feed, hops, t)
    ensures Known(feed, t) == leg.From() && Priced(feed, t) == leg.To() == asset
    ensures Depth(feed, t) == leg.Depth() && Across(feed, t) == leg.Other()
  {
    hide Layer, Reached, Names, IsMarketOf;
    var known := Layer(markets, xlmUsd, hops).Keys;
    var i := Choice(markets, |markets|, known, asset).value;
    ChoiceIsDeepest(markets, |markets|, known, asset);
    hide Choice, Bridge, Known, Priced, Depth, Across;
    t := LegIsTrade(feed, markets, at, i, leg);
    forall other | && IsTrade(feed, other) && Priced(feed, other) == Priced(feed, t)
                   && Reached(feed, hops, Known(feed, other))
      ensures || Depth(feed, other) < Depth(feed, t)
              || (Depth(feed, other) == Depth(feed, t) && t.listing <= other.listing)
    {
      var j, otherLeg := TradeIsLeg(feed, markets, at, other);
      ReachedIffPriced(feed, markets, at, xlmUsd, hops, Known(feed, other));
      LegReaches(otherLeg, known);
    }
  }

  lemma {:induction false} DerivesGreedily(feed: Feed, markets: seq<Market>, at: seq<nat>, xlmUsd: real,
                                           chain: seq<Leg>, asset: AssetId) returns (trades: seq<Trade>)
    requires Places(feed, markets, at) && Derives(markets, xlmUsd, chain, asset)
    ensures |trades| == |chain| && Greedy(feed, trades, asset) && Leads(feed, trades, asset)
    ensures TradeRate(feed, trades, asset) == Rate(chain)
  {
    hide Places, Names, Known, Priced, Depth, Across, Layer, Crosses, Preferred, Reached, Greedy, Leads;
    if chain == [] {
      trades := [];
      NoTrades(feed);
    } else {
      var n := |chain| - 1;
      var leg := chain[n];
      var front := DerivesGreedily(feed, markets, at, xlmUsd, chain[..n], leg.From());
      var t := CrossedIsPreferred(feed, markets, at, xlmUsd, n, asset, leg);
      ReachedIffPriced(feed, markets, at, xlmUsd, n, asset);
      GreedyOneMore(feed, front, t, asset);
      trades := front + [t];
    }
  }

  lemma NoTrades(feed: Feed)
    ensures Greedy(feed, [], NATIVE) && Leads(feed, [], NATIVE) && TradeRate(feed, [], NATIVE) == 1.0
  {
  }

  lemma GreedyOneMore(feed: Feed, front: seq<Trade>, t: Trade, asset: AssetId)
    requires IsTrade(feed, t) && Priced(feed, t) == asset
    requires Preferred(feed, |front|, t) && !Reached(feed, |front|, asset)
    requires Greedy(feed, front, Known(feed, t)) && Leads(feed, front, Known(feed, t))
    ensures Greedy(feed, front + [t], asset) && Leads(feed, front + [t], asset)
    ensures TradeRate(feed, front + [t], asset)
            == Depth(feed, t) / Across(feed, t) * TradeRate(feed, front, Known(feed, t))
  {
    hide Names, Known, Priced, Depth, Across, Preferred, Reached;
    var trades := front + [t];
    assert trades[..|front|] == front && trades[|trades| - 1] == t;
  }

  /** What a cycle's rows are, from the feed alone. An asset has a row exactly when at
      most four trades lead to it from XLM; the row's price is the XLM price times
      the ratios of the listed amounts along the one way that prices each asset as
      early as it can be over the deepest listing, the first of equals; and its
      source says how many trades that takes. */
  lemma CyclePricesFromFeed(added: seq<PriceRow>, now: int, feed: Feed, xlmUsd: real, asset: AssetId)
    requires CycleRows(added, now, Resolved(ParsedReserves(feed)), xlmUsd, MAX_PRICE_HOPS)
    ensures (exists i :: 0 <= i < |added| && added[i].asset == asset) <==> Reached(feed, 4, asset)
    ensures forall i, j :: 0 <= i < j < |added| ==> added[i].asset != added[j].asset
    ensures forall i :: 0 <= i < |added| && added[i].asset == asset ==>
              exists trades ::
                && |trades| <= 4 && Greedy(feed, trades, asset) && Leads(feed, trades, asset)
                && added[i] == PriceRow(now, asset, TradeRate(feed, trades, asset) * xlmUsd, SourceAfter(|trades|))
  {
    hide Layer, Places, Greedy, Leads, TradeRate, Derives, Rate, IsChain, Shortest, Reached, CycleRows;
    hide ParsedReserves, Resolved, SourceOf, SourceAfter;
    var markets := Resolved(ParsedReserves(feed));
    var at := PoolsAreListings(feed);
    ReachedIffPriced(feed, markets, at, xlmUsd, 4, asset);
    RowsOfCycle(added, now, markets, xlmUsd, asset);
    if asset in Layer(markets, xlmUsd, 4) {
      var chain := PricedAlongShortestChain(markets, xlmUsd, 4, asset);
      var trades := DerivesGreedily(feed, markets, at, xlmUsd, chain, asset);
      SourceOfChain(markets, xlmUsd, chain, asset);
    }
  }

  ghost function SourceAfter(trades: nat): string {
    if trades == 0 then "coingecko" else if trades == 1 then "xlm_pool_ratio" else "multi_hop_pool_ratio"
  }

  lemma RowsOfCycle(added: seq<PriceRow>, now: int, markets: seq<Market>, xlmUsd: real, asset: AssetId)
    requires CycleRows(added, now, markets, xlmUsd, 4)
    ensures (exists i :: 0 <= i < |added| && added[i].asset == asset) <==> asset in Layer(markets, xlmUsd, 4)
    ensures forall i, j :: 0 <= i < j < |added| ==> added[i].asset != added[j].asset
    ensures forall i :: 0 <= i < |added| && added[i].asset == asset ==>
              && asset in Layer(markets, xlmUsd, 4)
              && added[i] == PriceRow(now, asset, Layer(markets, xlmUsd, 4)[asset], SourceOf(markets, xlmUsd, asset))
  {
    hide Layer, SourceOf;
  }

  lemma SourceOfChain(markets: seq<Market>, xlmUsd: real, chain: seq<Leg>, asset: AssetId)
    requires Derives(markets, xlmUsd, chain, asset)
    ensures SourceOf(markets, xlmUsd, asset) == SourceAfter(|chain|)
  {
    hide Newly, Merge, Crosses, Rate;
    if |chain| > 0 {
      LayerGrows(markets, xlmUsd, 0, |chain| - 1);
      if |chain| > 1 {
        LayerGrows(markets, xlmUsd, 1, |chain| - 1);
      }
    }
  }
}
