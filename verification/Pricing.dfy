/** Pricing one leg of an AMM pool from the other (src/pricing.rs). Decimals are
    exact reals; only native XLM carries a price from outside. */
module Pricing {
  import opened Wrappers

  /** The crate's asset identity: code and issuer, `("XLM", "")` for native. */
  datatype AssetId = AssetId(code: string, issuer: string)

  const NATIVE := AssetId("XLM", "")

  /** The text before and after the first `c`, if there is one. */
  function SplitOnce(s: string, c: char): (r: Option<(string, string)>)
    ensures r.None? <==> c !in s
    ensures r.Some? ==> c !in r.value.0 && s == r.value.0 + [c] + r.value.1
  {
    if s == [] then None
    else if s[0] == c then Some(([], s[1..]))
    else
      match SplitOnce(s[1..], c)
      case None => None
      case Some((before, after)) => Some(([s[0]] + before, after))
  }

  function ParsePoolAsset(asset: string): AssetId {
    if asset == "native" then NATIVE
    else
      match SplitOnce(asset, ':')
      case Some((code, issuer)) => AssetId(code, issuer)
      case None => AssetId(asset, "")
  }

  /** One reserve as Horizon lists it; `None` where the amount does not parse. */
  datatype PoolReserve = PoolReserve(asset: string, amount: Option<real>)

  /** One pool: both legs as Horizon names them, with their parsed reserves. */
  datatype Pool = Pool(assetA: string, reserveA: real, assetB: string, reserveB: real) {
    function Swapped(): Pool { Pool(assetB, reserveB, assetA, reserveA) }
  }

  /** The same pool with its two asset names resolved. */
  datatype Market = Market(idA: AssetId, reserveA: real, idB: AssetId, reserveB: real) {
    function Swapped(): Market { Market(idB, reserveB, idA, reserveA) }
  }

  function Resolve(pool: Pool): Market {
    Market(ParsePoolAsset(pool.assetA), pool.reserveA, ParsePoolAsset(pool.assetB), pool.reserveB)
  }

  /** A derived price, with the known-side reserve that ranks it. */
  datatype Quote = Quote(asset: AssetId, price: real, weight: real)

  /** The unknown leg's price: its pool's reserve ratio times the known price. */
  function Implied(knownReserve: real, otherReserve: real, knownPrice: real): real
    requires otherReserve != 0.0
  {
    (knownReserve / otherReserve) * knownPrice
  }

  function PriceFromKnownLeg(pool: Pool, known: AssetId, knownPrice: real): Option<Quote> {
    var m := Resolve(pool);
    if m.idA == m.idB then None
    else if m.idA == known then
      if m.reserveB == 0.0 then None
      else Some(Quote(m.idB, Implied(m.reserveA, m.reserveB, knownPrice), m.reserveA))
    else if m.idB == known then
      if m.reserveA == 0.0 then None
      else Some(Quote(m.idA, Implied(m.reserveB, m.reserveA, knownPrice), m.reserveB))
    else None
  }

  /** The inverse direction: what Horizon writes for an asset. */
  function FormatPoolAsset(id: AssetId): string {
    if id == NATIVE then "native" else id.code + ":" + id.issuer
  }

  lemma {:induction false} SplitAtFirst(before: string, c: char, after: string)
    requires c !in before
    ensures SplitOnce(before + [c] + after, c) == Some((before, after))
  {
    var s := before + [c] + after;
    if before == [] {
      assert s[1..] == after;
    } else {
      assert s[1..] == before[1..] + [c] + after && [before[0]] + before[1..] == before;
      SplitAtFirst(before[1..], c, after);
    }
  }

  /** Parsing undoes formatting exactly for the asset codes without a colon. */
  lemma ParseUndoesFormat(id: AssetId)
    ensures ParsePoolAsset(FormatPoolAsset(id)) == id <==> ':' !in id.code
  {
    if id != NATIVE {
      var s := FormatPoolAsset(id);
      assert s == id.code + [':'] + id.issuer && ':' in s && ':' !in "native";
      if ':' !in id.code {
        SplitAtFirst(id.code, ':', id.issuer);
      }
    }
  }

  /** The three spellings that all mean native XLM: an issuerless "XLM" is not
      told apart from the network's own asset. */
  lemma NativeSpellings(asset: string)
    ensures ParsePoolAsset(asset) == NATIVE <==> asset in {"native", "XLM", "XLM:"}
  {
    SplitAtFirst("XLM", ':', "");
    assert "XLM" + [':'] + "" == "XLM:";
    if asset != "native" && SplitOnce(asset, ':') == Some(("XLM", "")) {
      assert asset == "XLM" + [':'] + "";
    }
  }

  /** Which leg is listed first does not matter to the quote. */
  lemma QuoteIgnoresLegOrder(pool: Pool, known: AssetId, knownPrice: real)
    ensures PriceFromKnownLeg(pool.Swapped(), known, knownPrice) == PriceFromKnownLeg(pool, known, knownPrice)
  {
    assert Resolve(pool.Swapped()) == Resolve(pool).Swapped();
  }
}
