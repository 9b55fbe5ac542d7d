/** The network's payments and the bounded page walk over them (src/horizon.rs).
    The ledger is append-only with increasing paging tokens; a request sees some
    prefix of it, possibly a different one each time, or fails. */
module PaymentLedger {
  import opened Wrappers

  /** The amount field, and what parsing it gives. */
  datatype Amount = Missing | Unparsable | Parsed(value: real)

  datatype Payment = Payment(
    id: string, token: int, opType: string,
    assetType: Option<string>, assetCode: Option<string>, assetIssuer: Option<string>,
    amount: Amount)

  type Ledger = seq<Payment>

  /** Horizon's promise: tokens increase, and no two operations share an id. */
  ghost predicate WellFormed(ledger: Ledger) {
    && (forall i, j :: 0 <= i < j < |ledger| ==> ledger[i].token < ledger[j].token)
    && (forall i, j :: 0 <= i < j < |ledger| ==> ledger[i].id != ledger[j].id)
  }

  /** The payments after `cursor`, as the server selects them. */
  function Since(view: seq<Payment>, cursor: int): seq<Payment> {
    if view == [] then []
    else
      var rest, last := Since(view[..|view| - 1], cursor), view[|view| - 1];
      if last.token > cursor then rest + [last] else rest
  }

  /** How many payments are at or before `cursor`. */
  function Position(ledger: Ledger, cursor: int): (p: nat)
    ensures p <= |ledger|
  {
    if ledger == [] then 0
    else Position(ledger[..|ledger| - 1], cursor) + if ledger[|ledger| - 1].token <= cursor then 1 else 0
  }

  function Min(a: nat, b: nat): nat { if a < b then a else b }

  /** One page: at most `limit` of the payments after `cursor` the server can see. */
  function Page(ledger: Ledger, visible: nat, cursor: int, limit: nat): seq<Payment> {
    var after := Since(ledger[..Min(visible, |ledger|)], cursor);
    after[..Min(limit, |after|)]
  }

  lemma {:induction false} PositionSplits(ledger: Ledger, cursor: int)
    requires WellFormed(ledger)
    ensures forall i :: 0 <= i < |ledger| ==> (ledger[i].token <= cursor <==> i < Position(ledger, cursor))
  {
    if ledger != [] {
      var n := |ledger| - 1;
      PositionSplits(ledger[..n], cursor);
      assert forall i :: 0 <= i < n ==> ledger[..n][i] == ledger[i];
    }
  }

  /** Being at a payment's token means being right after it. */
  lemma PositionOf(ledger: Ledger, n: nat)
    requires WellFormed(ledger) && n < |ledger|
    ensures Position(ledger, ledger[n].token) == n + 1
  {
    PositionSplits(ledger, ledger[n].token);
    assert n + 1 < |ledger| ==> ledger[n].token < ledger[n + 1].token;
  }

  lemma WellFormedSlice(ledger: Ledger, from: nat, to: nat)
    requires WellFormed(ledger) && from <= to <= |ledger|
    ensures WellFormed(ledger[from..to])
  {
  }

  lemma {:induction false} SinceIsSuffix(ledger: Ledger, cursor: int)
    requires WellFormed(ledger)
    ensures Since(ledger, cursor) == ledger[Position(ledger, cursor)..]
  {
    hide WellFormed;
    if ledger != [] {
      var n := |ledger| - 1;
      WellFormedSlice(ledger, 0, n);
      assert ledger[0..n] == ledger[..n];
      SinceIsSuffix(ledger[..n], cursor);
      if ledger[n].token <= cursor {
        AllAtOrBefore(ledger, cursor);
      } else {
        var p := Position(ledger[..n], cursor);
        assert ledger[p..] == ledger[..n][p..] + [ledger[n]];
      }
    }
  }

  /** With its last payment, all of a ledger is at or before the cursor. */
  lemma AllAtOrBefore(ledger: Ledger, cursor: int)
    requires WellFormed(ledger) && ledger != [] && ledger[|ledger| - 1].token <= cursor
    ensures Position(ledger[..|ledger| - 1], cursor) == |ledger| - 1 && Position(ledger, cursor) == |ledger|
  {
    PositionSplits(ledger, cursor);
    assert |ledger| - 1 < Position(ledger, cursor);
  }

  lemma PositionInView(ledger: Ledger, seen: nat, cursor: int)
    requires WellFormed(ledger) && seen <= |ledger|
    ensures Position(ledger[..seen], cursor) == Min(Position(ledger, cursor), seen)
  {
    hide Position;
    var view := ledger[..seen];
    PositionSplits(ledger, cursor);
    PositionSplits(view, cursor);
    var p, q := Position(ledger, cursor), Position(view, cursor);
    var m := Min(p, seen);
    assert q > 0 ==> view[q - 1] == ledger[q - 1];
    assert m > 0 ==> view[m - 1] == ledger[m - 1];
  }

  /** A page is a contiguous stretch of the ledger starting right after the cursor,
      and is full unless the server sees too little. */
  lemma PageIsContiguous(ledger: Ledger, visible: nat, cursor: int, limit: nat)
    requires WellFormed(ledger)
    ensures var p := Position(ledger, cursor);
            var page := Page(ledger, visible, cursor, limit);
            && |page| <= limit && p + |page| <= |ledger| && page == ledger[p..p + |page|]
            && (visible >= |ledger| ==> |page| == Min(limit, |ledger| - p))
  {
    hide Position, Since;
    var seen := Min(visible, |ledger|);
    SinceIsSuffix(ledger[..seen], cursor);
    PositionInView(ledger, seen, cursor);
    var p, q := Position(ledger, cursor), Min(Position(ledger, cursor), seen);
    var page := Page(ledger, visible, cursor, limit);
    StretchOfView(ledger, seen, q, |page|);
    assert q < p ==> page == [];
  }

  lemma StretchOfView(ledger: Ledger, seen: nat, q: nat, count: nat)
    requires q + count <= seen <= |ledger|
    ensures ledger[..seen][q..][..count] == ledger[q..q + count]
  {
  }

  /** What one request of a walk meets: how much of the ledger the server can see
      and whether its reply carries a next link, or a failure after all retries. */
  datatype Reply = Reply(visible: nat, linked: bool) | Lost

  /** `out` is the stretch from position `p`, at most `most` payments and, if every
      reply is prompt, no fewer than there are. */
  ghost predicate Stretch(ledger: Ledger, prompt: bool, p: nat, most: nat, out: seq<Payment>) {
    && |out| <= most && p + |out| <= |ledger| && out == ledger[p..p + |out|]
    && (prompt ==> |out| == Min(|ledger| - p, most))
  }

  /** What a walk promises its caller. */
  ghost predicate Walked(
      ledger: Ledger, replies: nat -> Reply, cursor: int, maxPages: nat, limit: nat, out: seq<Payment>)
  {
    Stretch(ledger, Prompt(ledger, replies, maxPages), Position(ledger, cursor), maxPages * limit, out)
  }

  /** Every reply comes, is linked, and sees the whole ledger. */
  ghost predicate Prompt(ledger: Ledger, replies: nat -> Reply, pages: nat) {
    forall n :: 0 <= n < pages ==> replies(n).Reply? && replies(n).linked && replies(n).visible >= |ledger|
  }

  /** Follows next links for up to `maxPages` pages, or until a page is empty. */
  method GetAllPages(ledger: Ledger, replies: nat -> Reply, cursor: int, maxPages: nat, limit: nat)
    returns (r: Result<seq<Payment>, string>)
    requires WellFormed(ledger) && limit > 0
    ensures r.Success? ==> Walked(ledger, replies, cursor, maxPages, limit, r.value)
    ensures r.Failure? ==> exists n: nat :: n < maxPages && replies(n).Lost?
    ensures r.Success? ==> Ends(replies, maxPages, limit, |r.value|)
  {
    hide Position, Page, WellFormed, Prompt, Stretch;
    var out: seq<Payment> := [];
    var at := cursor;
    ghost var p, prompt := Position(ledger, cursor), Prompt(ledger, replies, maxPages);
    NothingWalked(ledger, prompt, p);
    var n := 0;
    while n < maxPages
      invariant n <= maxPages && p + |out| <= |ledger|
      invariant Stretch(ledger, prompt, p, n * limit, out) && Position(ledger, at) == p + |out|
      invariant forall i: nat :: i < n ==> replies(i).Reply? && replies(i).linked
      decreases maxPages - n
    {
      var reply := replies(n);
      if reply.Lost? {
        return Failure("horizon request failed");
      }
      var page := Page(ledger, reply.visible, at, limit);
      PageIsContiguous(ledger, reply.visible, at, limit);
      PromptAt(ledger, replies, maxPages, n);
      OnePageMore(ledger, prompt, p, n, limit, out, page);
      if !reply.linked || |page| == 0 {
        StopsEarly(ledger, prompt, p, n, limit, out, page, maxPages);
        EndsHere(ledger, replies, prompt, p, n, limit, out + page, maxPages);
        return Success(out + page);
      }
      out := out + page;
      at := page[|page| - 1].token;
      PositionOf(ledger, p + |out| - 1);
      n := n + 1;
    }
    return Success(out);
  }

  /** A walk ends with the first page that has no link, and takes nothing from a
      request that is lost. */
  ghost predicate Ends(replies: nat -> Reply, maxPages: nat, limit: nat, count: nat) {
    forall n: nat :: n < maxPages ==>
      && (replies(n).Lost? ==> count <= n * limit)
      && (replies(n).Reply? && !replies(n).linked ==> count <= (n + 1) * limit)
  }

  lemma EndsHere(ledger: Ledger, replies: nat -> Reply, prompt: bool, p: nat, n: nat, limit: nat, out: seq<Payment>,
                 maxPages: nat)
    requires n < maxPages && replies(n).Reply? && forall i: nat :: i < n ==> replies(i).Reply? && replies(i).linked
    requires Stretch(ledger, prompt, p, (n + 1) * limit, out)
    ensures Ends(replies, maxPages, limit, |out|)
  {
    forall m: nat | m < maxPages
      ensures replies(m).Lost? ==> |out| <= m * limit
      ensures replies(m).Reply? && !replies(m).linked ==> |out| <= (m + 1) * limit
    {
      if m > n {
        MorePages(n + 1, m, limit);
        MorePages(n + 1, m + 1, limit);
      }
    }
  }

  lemma NothingWalked(ledger: Ledger, prompt: bool, p: nat)
    requires p <= |ledger|
    ensures Stretch(ledger, prompt, p, 0, [])
  {
  }

  lemma PromptAt(ledger: Ledger, replies: nat -> Reply, pages: nat, n: nat)
    requires n < pages
    ensures Prompt(ledger, replies, pages) ==> replies(n).Reply? && replies(n).linked && replies(n).visible >= |ledger|
  {
  }

  /** One more page, starting where the stretch ends. */
  lemma OnePageMore(ledger: Ledger, prompt: bool, p: nat, n: nat, limit: nat, out: seq<Payment>, page: seq<Payment>)
    requires Stretch(ledger, prompt, p, n * limit, out)
    requires var q := p + |out|;
             && |page| <= limit && q + |page| <= |ledger| && page == ledger[q..q + |page|]
             && (prompt ==> |page| == Min(limit, |ledger| - q))
    ensures Stretch(ledger, prompt, p, (n + 1) * limit, out + page)
  {
    assert (n + 1) * limit == n * limit + limit;
  }

  /** A page is the last one when it is empty or has no link. */
  lemma StopsEarly(ledger: Ledger, prompt: bool, p: nat, n: nat, limit: nat, out: seq<Payment>, page: seq<Payment>,
                   maxPages: nat)
    requires Stretch(ledger, prompt, p, n * limit, out) && Stretch(ledger, prompt, p, (n + 1) * limit, out + page)
    requires n < maxPages && limit > 0 && (prompt ==> page == [])
    ensures Stretch(ledger, prompt, p, maxPages * limit, out + page)
  {
    MorePages(n, n + 1, limit);
    MorePages(n + 1, maxPages, limit);
    assert (n + 1) * limit == n * limit + limit;
  }

  lemma MorePages(n: nat, maxPages: nat, limit: nat)
    requires n <= maxPages
    ensures n * limit <= maxPages * limit
  {
  }
}
