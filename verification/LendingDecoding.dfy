/** Heuristic decoding of Blend contract events (src/soroban.rs): the payload is
    walked for any address and any I128, with no assumption about its shape. XDR
    bytes and address strings are taken as already decoded. */
module LendingDecoding {
  import opened Wrappers
  import opened LendingPositions

  type I64 = n: int | -0x8000_0000_0000_0000 <= n < 0x8000_0000_0000_0000
  type U64 = n: nat | n < 0x1_0000_0000_0000_0000

  /** A contract value. `Symbol(None)` is one that is not UTF-8; `Other` is every
      kind the walk ignores, empty vectors and maps among them. */
  datatype ScVal =
    | Symbol(name: Option<string>)
    | Address(text: string)
    | I128(hi: I64, lo: U64)
    | Vec(items: seq<ScVal>)
    | Map(entries: seq<MapEntry>)
    | Other

  datatype MapEntry = MapEntry(key: ScVal, val: ScVal)

  /** `(hi << 64) | lo` on 128-bit integers: the two halves share no bits. */
  function I128Value(val: ScVal): int
    requires val.I128?
  {
    val.hi * 0x1_0000_0000_0000_0000 + val.lo
  }

  /** Two halves at a time is how 128-bit integers compare, so no two amounts are
      confused and the greatest is the greatest. */
  lemma I128Orders(a: ScVal, b: ScVal)
    requires a.I128? && b.I128?
    ensures I128Value(a) < I128Value(b) <==> a.hi < b.hi || (a.hi == b.hi && a.lo < b.lo)
    ensures -0x8000_0000_0000_0000_0000_0000_0000_0000 <= I128Value(a) < 0x8000_0000_0000_0000_0000_0000_0000_0000
  {
    if a.hi < b.hi {
      assert a.hi + 1 <= b.hi;
    } else if b.hi < a.hi {
      assert b.hi + 1 <= a.hi;
    }
  }

  /** The addresses and amounts of a value, in the order the walk meets them. */
  function Leaves(val: ScVal): seq<ScVal>
    decreases val, 1
  {
    match val
    case Address(_) => [val]
    case I128(_, _) => [val]
    case Vec(items) => LeavesOf(items)
    case Map(entries) => LeavesOfEntries(entries)
    case _ => []
  }

  function LeavesOf(vals: seq<ScVal>): seq<ScVal>
    decreases vals, 0
  {
    if vals == [] then [] else LeavesOf(vals[..|vals| - 1]) + Leaves(vals[|vals| - 1])
  }

  function LeavesOfEntries(entries: seq<MapEntry>): seq<ScVal>
    decreases entries, 0
  {
    if entries == [] then []
    else LeavesOfEntries(entries[..|entries| - 1]) + LeavesOfEntry(entries[|entries| - 1])
  }

  function LeavesOfEntry(entry: MapEntry): seq<ScVal>
    decreases entry, 0
  {
    Leaves(entry.key) + Leaves(entry.val)
  }

  function Addresses(leaves: seq<ScVal>): seq<string> {
    if leaves == [] then []
    else Addresses(leaves[..|leaves| - 1]) + if leaves[|leaves| - 1].Address? then [leaves[|leaves| - 1].text] else []
  }

  function Amounts(leaves: seq<ScVal>): seq<int> {
    if leaves == [] then []
    else Amounts(leaves[..|leaves| - 1]) + if leaves[|leaves| - 1].I128? then [I128Value(leaves[|leaves| - 1])] else []
  }

  lemma {:induction false} LeafListsAppend(a: seq<ScVal>, b: seq<ScVal>)
    ensures Addresses(a + b) == Addresses(a) + Addresses(b)
    ensures Amounts(a + b) == Amounts(a) + Amounts(b)
  {
    if b == [] {
      assert a + b == a;
    } else {
      var n := |b| - 1;
      assert (a + b)[..|a + b| - 1] == a + b[..n] && (a + b)[|a + b| - 1] == b[n];
      LeafListsAppend(a, b[..n]);
    }
  }

  lemma LeavesOneMore(vals: seq<ScVal>, i: nat)
    requires i < |vals|
    ensures LeavesOf(vals[..i + 1]) == LeavesOf(vals[..i]) + Leaves(vals[i])
  {
    assert vals[..i + 1][..i] == vals[..i];
  }

  lemma EntriesOneMore(entries: seq<MapEntry>, i: nat)
    requires i < |entries|
    ensures LeavesOfEntries(entries[..i + 1])
            == LeavesOfEntries(entries[..i]) + LeavesOfEntry(entries[i])
  {
    assert entries[..i + 1][..i] == entries[..i];
  }

  lemma OneLeaf(val: ScVal)
    ensures Addresses([val]) == if val.Address? then [val.text] else []
    ensures Amounts([val]) == if val.I128? then [I128Value(val)] else []
  {
    assert [val][..0] == [];
    assert Addresses([]) == [] && Amounts([]) == [];
  }

  /** The two vectors the walk pushes into. */
  class Collector {
    var addresses: seq<string>
    var amounts: seq<int>

    constructor ()
      ensures addresses == [] && amounts == []
    {
      addresses, amounts := [], [];
    }

    /** Since the vectors were as given, exactly `leaves` have been pushed. */
    ghost predicate Gained(addressesBefore: seq<string>, amountsBefore: seq<int>, leaves: seq<ScVal>)
      reads this
    {
      addresses == addressesBefore + Addresses(leaves) && amounts == amountsBefore + Amounts(leaves)
    }

    method Walk(val: ScVal)
      modifies this
      ensures Gained(old(addresses), old(amounts), Leaves(val))
      decreases val, 1
    {
      hide LeavesOfEntries, LeavesOf;
      OneLeaf(val);
      match val
      case Address(text) =>
        addresses := addresses + [text];
      case I128(_, _) =>
        amounts := amounts + [I128Value(val)];
      case Vec(items) =>
        WalkAll(items);
      case Map(entries) =>
        WalkEntries(entries);
      case _ =>
    }

    method WalkAll(vals: seq<ScVal>)
      modifies this
      ensures Gained(old(addresses), old(amounts), LeavesOf(vals))
      decreases vals, 0
    {
      hide Addresses, Amounts, Leaves, LeavesOf;
      LeavesOfNone();
      for i := 0 to |vals|
        invariant Gained(old(addresses), old(amounts), LeavesOf(vals[..i]))
      {
        Walk(vals[i]);
        LeavesOneMore(vals, i);
        LeafListsAppend(LeavesOf(vals[..i]), Leaves(vals[i]));
      }
      assert vals[..|vals|] == vals;
    }

    method WalkEntry(entry: MapEntry)
      modifies this
      ensures Gained(old(addresses), old(amounts), LeavesOfEntry(entry))
      decreases entry, 0
    {
      hide Addresses, Amounts, Leaves;
      Walk(entry.key);
      Walk(entry.val);
      LeafListsAppend(Leaves(entry.key), Leaves(entry.val));
    }

    method WalkEntries(entries: seq<MapEntry>)
      modifies this
      ensures Gained(old(addresses), old(amounts), LeavesOfEntries(entries))
      decreases entries, 0
    {
      hide Addresses, Amounts, LeavesOfEntry, LeavesOfEntries;
      LeavesOfNone();
      for i := 0 to |entries|
        invariant Gained(old(addresses), old(amounts), LeavesOfEntries(entries[..i]))
      {
        WalkEntry(entries[i]);
        EntriesOneMore(entries, i);
        LeafListsAppend(LeavesOfEntries(entries[..i]), LeavesOfEntry(entries[i]));
      }
      assert entries[..|entries|] == entries;
    }
  }

  lemma LeavesOfNone()
    ensures LeavesOf([]) == [] && LeavesOfEntries([]) == [] && Addresses([]) == [] && Amounts([]) == []
  {
  }

  // ---- what the walk finds ----

  /** `leaf` stands somewhere inside `val`. */
  ghost predicate Occurs(leaf: ScVal, val: ScVal)
    decreases val, 1
  {
    || val == leaf
    || (val.Vec? && OccursIn(leaf, val.items))
    || (val.Map? && exists i :: 0 <= i < |val.entries| && OccursInEntry(leaf, val.entries[i]))
  }

  ghost predicate OccursIn(leaf: ScVal, vals: seq<ScVal>)
    decreases vals, 0
  {
    exists i :: 0 <= i < |vals| && Occurs(leaf, vals[i])
  }

  ghost predicate OccursInEntry(leaf: ScVal, entry: MapEntry)
    decreases entry, 0
  {
    Occurs(leaf, entry.key) || Occurs(leaf, entry.val)
  }

  predicate IsLeaf(val: ScVal) { val.Address? || val.I128? }

  /** The walk meets every address and amount in the value, however deep, and
      nothing else. */
  lemma {:induction false} LeavesAreOccurrences(leaf: ScVal, val: ScVal)
    requires IsLeaf(leaf)
    ensures leaf in Leaves(val) <==> Occurs(leaf, val)
    decreases val, 1
  {
    match val
    case Vec(items) => LeavesOfAreOccurrences(leaf, items);
    case Map(entries) => LeavesOfEntriesAreOccurrences(leaf, entries);
    case _ =>
  }

  lemma {:induction false} LeavesOfAreOccurrences(leaf: ScVal, vals: seq<ScVal>)
    requires IsLeaf(leaf)
    ensures leaf in LeavesOf(vals) <==> OccursIn(leaf, vals)
    decreases vals, 0
  {
    hide Leaves, Occurs;
    if vals != [] {
      var front, last := vals[..|vals| - 1], vals[|vals| - 1];
      LeavesOfAreOccurrences(leaf, front);
      LeavesAreOccurrences(leaf, last);
      assert vals == front + [last];
      if OccursIn(leaf, front) {
        var i :| 0 <= i < |front| && Occurs(leaf, front[i]);
        assert Occurs(leaf, vals[i]);
      }
      if OccursIn(leaf, vals) && !Occurs(leaf, last) {
        var i :| 0 <= i < |vals| && Occurs(leaf, vals[i]);
        assert Occurs(leaf, front[i]);
      }
    }
  }

  lemma {:induction false} LeavesOfEntryAreOccurrences(leaf: ScVal, entry: MapEntry)
    requires IsLeaf(leaf)
    ensures leaf in LeavesOfEntry(entry) <==> OccursInEntry(leaf, entry)
    decreases entry, 0
  {
    LeavesAreOccurrences(leaf, entry.key);
    LeavesAreOccurrences(leaf, entry.val);
  }

  lemma {:induction false} LeavesOfEntriesAreOccurrences(leaf: ScVal, entries: seq<MapEntry>)
    requires IsLeaf(leaf)
    ensures leaf in LeavesOfEntries(entries) <==> exists i :: 0 <= i < |entries| && OccursInEntry(leaf, entries[i])
    decreases entries, 0
  {
    hide LeavesOfEntry, OccursInEntry;
    if entries != [] {
      var front, last := entries[..|entries| - 1], entries[|entries| - 1];
      LeavesOfEntriesAreOccurrences(leaf, front);
      LeavesOfEntryAreOccurrences(leaf, last);
      assert forall i :: 0 <= i < |front| ==> front[i] == entries[i];
    }
  }

  lemma {:induction false} AmountsOfLeaves(leaves: seq<ScVal>, amount: int)
    ensures amount in Amounts(leaves) <==> exists leaf :: leaf in leaves && leaf.I128? && I128Value(leaf) == amount
  {
    if leaves != [] {
      var front, last := leaves[..|leaves| - 1], leaves[|leaves| - 1];
      AmountsOfLeaves(front, amount);
      assert leaves == front + [last];
    }
  }

  lemma {:induction false} AddressesOfLeaves(leaves: seq<ScVal>, text: string)
    ensures text in Addresses(leaves) <==> Address(text) in leaves
  {
    if leaves != [] {
      var front, last := leaves[..|leaves| - 1], leaves[|leaves| - 1];
      AddressesOfLeaves(front, text);
      assert leaves == front + [last];
    }
  }

  // ---- one event ----

  /** An event as the RPC returns it; `None` where the XDR or the time is bad. */
  datatype RawEvent = RawEvent(
    contract: string, topics: Option<seq<ScVal>>, value: Option<ScVal>, closedAt: Option<int>)

  function Classify(name: string): Option<EventKind> {
    match name
    case "supply_collateral" => Some(SupplyCollateral)
    case "withdraw_collateral" => Some(WithdrawCollateral)
    case "borrow" => Some(Borrow)
    case "repay" => Some(Repay)
    case _ => None
  }

  /** The kind named by the first topic, if it is one that moves a position. */
  function KindOf(topics: seq<ScVal>): Option<EventKind> {
    if |topics| == 0 || !topics[0].Symbol? || topics[0].name.None? then None else Classify(topics[0].name.value)
  }

  function ReserveOf(topics: seq<ScVal>): string {
    if |topics| > 1 && topics[1].Address? then topics[1].text else "unknown"
  }

  function FirstOther(addresses: seq<string>, reserve: string): Option<string> {
    if addresses == [] then None
    else if addresses[0] != reserve then Some(addresses[0])
    else FirstOther(addresses[1..], reserve)
  }

  function Largest(amounts: seq<int>): Option<int> {
    if amounts == [] then None
    else
      var rest, last := Largest(amounts[..|amounts| - 1]), amounts[|amounts| - 1];
      if rest.None? || rest.value <= last then Some(last) else rest
  }

  /** Everything the walk reads: the topics after the first, then the value. */
  function Payload(topics: seq<ScVal>, value: ScVal): seq<ScVal> {
    (if |topics| > 0 then topics[1..] else []) + [value]
  }

  const AMOUNT_SCALE := 10_000_000.0

  function Decode(raw: RawEvent): Result<Option<Event>, string> {
    if raw.topics.None? then Failure("bad topic xdr")
    else if raw.value.None? then Failure("bad value xdr")
    else
      var topics := raw.topics.value;
      var leaves := LeavesOf(Payload(topics, raw.value.value));
      var account, amount := FirstOther(Addresses(leaves), ReserveOf(topics)), Largest(Amounts(leaves));
      if KindOf(topics).None? || account.None? || amount.None? then Success(None)
      else if raw.closedAt.None? then Failure("bad ledgerClosedAt")
      else
        Success(Some(Event(
          PositionKey(raw.contract, account.value), raw.closedAt.value, KindOf(topics).value, ReserveOf(topics),
          amount.value as real / AMOUNT_SCALE)))
  }

  /** The code's decoding, with its early returns and its mutable vectors. */
  method DecodeEvent(raw: RawEvent) returns (r: Result<Option<Event>, string>)
    ensures r == Decode(raw)
  {
    hide Leaves, LeavesOf, Addresses, Amounts, FirstOther, Largest;
    if raw.topics.None? {
      return Failure("bad topic xdr");
    }
    if raw.value.None? {
      return Failure("bad value xdr");
    }
    var topics := raw.topics.value;
    var kind := KindOf(topics);
    if kind.None? {
      return Success(None);
    }
    var reserve := ReserveOf(topics);
    var found := new Collector();
    LeavesOfNone();
    found.WalkAll(topics[1..]);
    found.Walk(raw.value.value);
    ghost var payload := Payload(topics, raw.value.value);
    LeavesOneMore(payload, |topics| - 1);
    assert payload[..|topics| - 1] == topics[1..] && payload[..|payload|] == payload;
    LeafListsAppend(LeavesOf(topics[1..]), Leaves(raw.value.value));
    assert found.addresses == Addresses(LeavesOf(payload)) && found.amounts == Amounts(LeavesOf(payload));
    var account := FirstOther(found.addresses, reserve);
    if account.None? {
      return Success(None);
    }
    var amount := Largest(found.amounts);
    if amount.None? {
      return Success(None);
    }
    if raw.closedAt.None? {
      return Failure("bad ledgerClosedAt");
    }
    return Success(Some(Event(
      PositionKey(raw.contract, account.value), raw.closedAt.value, kind.value, reserve,
      amount.value as real / AMOUNT_SCALE)));
  }

  lemma {:induction false} LargestIsMaximum(amounts: seq<int>)
    ensures Largest(amounts).None? <==> amounts == []
    ensures Largest(amounts).Some? ==>
              Largest(amounts).value in amounts && forall a :: a in amounts ==> a <= Largest(amounts).value
  {
    if amounts != [] {
      LargestIsMaximum(amounts[..|amounts| - 1]);
      assert amounts == amounts[..|amounts| - 1] + [amounts[|amounts| - 1]];
    }
  }

  /** The first of these addresses that is not the reserve's. */
  ghost predicate IsFirstOther(addresses: seq<string>, reserve: string, account: string) {
    && account != reserve
    && exists i :: 0 <= i < |addresses| && addresses[i] == account && forall j :: 0 <= j < i ==> addresses[j] == reserve
  }

  lemma {:induction false} FirstOtherFound(addresses: seq<string>, reserve: string)
    ensures match FirstOther(addresses, reserve)
            case None => forall a :: a in addresses ==> a == reserve
            case Some(account) => IsFirstOther(addresses, reserve, account)
  {
    if addresses != [] {
      FirstOtherFound(addresses[1..], reserve);
      assert addresses == [addresses[0]] + addresses[1..];
      if addresses[0] == reserve && FirstOther(addresses, reserve).Some? {
        var i :| 0 <= i < |addresses[1..]| && addresses[1..][i] == FirstOther(addresses, reserve).value
                 && forall j :: 0 <= j < i ==> addresses[1..][j] == reserve;
        assert addresses[i + 1] == FirstOther(addresses, reserve).value;
        forall j | 0 <= j < i + 1
          ensures addresses[j] == reserve
        {
          assert j > 0 ==> addresses[j] == addresses[1..][j - 1];
        }
      }
    }
  }

  /** What the contract calls a kind of event. */
  ghost function NameOf(kind: EventKind): string {
    match kind
    case SupplyCollateral => "supply_collateral"
    case WithdrawCollateral => "withdraw_collateral"
    case Borrow => "borrow"
    case Repay => "repay"
  }

  /** The first topic is this kind's name. */
  ghost predicate Names(topics: seq<ScVal>, kind: EventKind) {
    topics != [] && topics[0] == Symbol(Some(NameOf(kind)))
  }

  lemma KindIsNamed(topics: seq<ScVal>, kind: EventKind)
    ensures KindOf(topics) == Some(kind) <==> Names(topics, kind)
  {
  }

  /** The reserve is the second topic's address, and "unknown" without one. */
  ghost predicate IsReserve(topics: seq<ScVal>, reserve: string) {
    if |topics| >= 2 && topics[1].Address? then topics[1] == Address(reserve) else reserve == "unknown"
  }

  lemma ReserveIs(topics: seq<ScVal>, reserve: string)
    ensures reserve == ReserveOf(topics) <==> IsReserve(topics, reserve)
  {
  }

  /** What a decoded event is, in terms of what the RPC returned: the pool and time
      are the event's, the kind is the one named and the reserve the one given; the
      account is the first address met in the payload that is not the reserve's, and
      the amount the greatest I128 anywhere in it. */
  lemma DecodedFromPayload(raw: RawEvent, e: Event)
    requires Decode(raw) == Success(Some(e))
    ensures raw.topics.Some? && raw.value.Some? && raw.closedAt == Some(e.time) && raw.contract == e.key.pool
    ensures Names(raw.topics.value, e.kind) && IsReserve(raw.topics.value, e.reserve)
    ensures var payload := Payload(raw.topics.value, raw.value.value);
            && e.key.account != e.reserve && OccursIn(Address(e.key.account), payload)
            && IsFirstOther(Addresses(LeavesOf(payload)), e.reserve, e.key.account)
            && (exists leaf: ScVal ::
                  leaf.I128? && OccursIn(leaf, payload) && e.amount == I128Value(leaf) as real / 10_000_000.0)
            && forall leaf: ScVal :: leaf.I128? && OccursIn(leaf, payload) ==>
                 I128Value(leaf) as real / 10_000_000.0 <= e.amount
  {
    hide OccursIn, LeavesOf, Addresses, Amounts, FirstOther, Largest, Payload, KindOf, ReserveOf, Names, IsReserve;
    var payload := Payload(raw.topics.value, raw.value.value);
    var leaves := LeavesOf(payload);
    KindIsNamed(raw.topics.value, e.kind);
    ReserveIs(raw.topics.value, e.reserve);
    FirstOtherFound(Addresses(leaves), e.reserve);
    AddressesOfLeaves(leaves, e.key.account);
    LeavesOfAreOccurrences(Address(e.key.account), payload);
    LargestIsMaximum(Amounts(leaves));
    var amount := Largest(Amounts(leaves)).value;
    AmountsOfLeaves(leaves, amount);
    var top :| top in leaves && top.I128? && I128Value(top) == amount;
    LeavesOfAreOccurrences(top, payload);
    forall leaf: ScVal | leaf.I128? && OccursIn(leaf, payload)
      ensures I128Value(leaf) as real / AMOUNT_SCALE <= e.amount
    {
      LeavesOfAreOccurrences(leaf, payload);
      AmountsOfLeaves(leaves, I128Value(leaf));
    }
  }

  /** A decoded amount is negative exactly when every I128 of the payload is. */
  lemma NegativeExactly(raw: RawEvent, e: Event)
    requires Decode(raw) == Success(Some(e))
    ensures e.amount < 0.0
            <==> forall leaf: ScVal :: leaf.I128? && OccursIn(leaf, Payload(raw.topics.value, raw.value.value)) ==>
                   I128Value(leaf) < 0
  {
    hide OccursIn, Payload, Decode, I128Value;
    DecodedFromPayload(raw, e);
  }

  const MINUS_ONE := I128(-1, 0xFFFF_FFFF_FFFF_FFFF)

  /** A borrow of a negative amount. */
  const NEGATIVE_BORROW := RawEvent(
    "pool", Some([Symbol(Some("borrow")), Address("reserve")]), Some(Vec([Address("account"), MINUS_ONE])), Some(0))

  /** It is decoded like any other, and so reaches the position's running totals. */
  lemma NegativeBorrowDecodes()
    ensures Decode(NEGATIVE_BORROW)
            == Success(Some(Event(PositionKey("pool", "account"), 0, Borrow, "reserve", -1.0 / AMOUNT_SCALE)))
  {
    var payload := [Address("reserve"), Vec([Address("account"), MINUS_ONE])];
    assert Payload(NEGATIVE_BORROW.topics.value, NEGATIVE_BORROW.value.value) == payload;
    NegativeLeaves();
    hide LeavesOf, Addresses, Amounts, Payload;
    assert ["reserve", "account"][1..] == ["account"] && [-1][..0] == [];
  }

  lemma NegativeLeaves()
    ensures var leaves := LeavesOf([Address("reserve"), Vec([Address("account"), MINUS_ONE])]);
            Addresses(leaves) == ["reserve", "account"] && Amounts(leaves) == [-1]
  {
    hide LeavesOf, Addresses, Amounts;
    var reserve, account := Address("reserve"), Address("account");
    LeavesOfTwo(reserve, Vec([account, MINUS_ONE]));
    LeavesOfTwo(account, MINUS_ONE);
    OneLeaf(reserve);
    OneLeaf(account);
    OneLeaf(MINUS_ONE);
    LeafListsAppend([account], [MINUS_ONE]);
    LeafListsAppend([reserve], [account] + [MINUS_ONE]);
  }

  lemma LeavesOfTwo(a: ScVal, b: ScVal)
    ensures LeavesOf([a, b]) == Leaves(a) + Leaves(b)
  {
    hide Leaves;
    LeavesOneMore([a, b], 0);
    LeavesOneMore([a, b], 1);
    assert [a, b][..2] == [a, b] && LeavesOf([a, b][..0]) == [];
  }

  /** The event is about no position: it names no kind that moves one, no address but
      the reserve's, or no amount. */
  ghost predicate AboutNone(topics: seq<ScVal>, payload: seq<ScVal>) {
    || (forall kind: EventKind :: !Names(topics, kind))
    || (forall text: string :: OccursIn(Address(text), payload) ==> IsReserve(topics, text))
    || (forall leaf: ScVal :: leaf.I128? ==> !OccursIn(leaf, payload))
  }

  /** Exactly which events are skipped, and which fail. */
  lemma SkippedExactly(raw: RawEvent)
    ensures Decode(raw) == Success(None) <==>
              && raw.topics.Some? && raw.value.Some?
              && AboutNone(raw.topics.value, Payload(raw.topics.value, raw.value.value))
    ensures Decode(raw).Failure? <==>
              || raw.topics.None? || raw.value.None?
              || (raw.closedAt.None? && !AboutNone(raw.topics.value, Payload(raw.topics.value, raw.value.value)))
  {
    hide OccursIn, LeavesOf, Addresses, Amounts, FirstOther, Largest, Payload, KindOf, ReserveOf, Names, IsReserve;
    if raw.topics.Some? && raw.value.Some? {
      var topics := raw.topics.value;
      var payload, reserve := Payload(topics, raw.value.value), ReserveOf(topics);
      LargestIsMaximum(Amounts(LeavesOf(payload)));
      forall kind
        ensures KindOf(topics) == Some(kind) <==> Names(topics, kind)
      {
        KindIsNamed(topics, kind);
      }
      forall text
        ensures text == reserve <==> IsReserve(topics, text)
      {
        ReserveIs(topics, text);
      }
      AddressesOccur(payload, reserve);
      AmountsOccur(payload);
    }
  }

  lemma AddressesOccur(payload: seq<ScVal>, reserve: string)
    ensures FirstOther(Addresses(LeavesOf(payload)), reserve).None?
            <==> forall text :: OccursIn(Address(text), payload) ==> text == reserve
  {
    hide OccursIn, LeavesOf, Addresses, FirstOther;
    var addresses := Addresses(LeavesOf(payload));
    FirstOtherFound(addresses, reserve);
    forall text | OccursIn(Address(text), payload)
      ensures text in addresses
    {
      AddressesOfLeaves(LeavesOf(payload), text);
      LeavesOfAreOccurrences(Address(text), payload);
    }
    var account := FirstOther(addresses, reserve);
    if account.Some? {
      AddressesOfLeaves(LeavesOf(payload), account.value);
      LeavesOfAreOccurrences(Address(account.value), payload);
    }
  }

  lemma AmountsOccur(payload: seq<ScVal>)
    ensures Amounts(LeavesOf(payload)) == [] <==> forall leaf: ScVal :: leaf.I128? ==> !OccursIn(leaf, payload)
  {
    hide OccursIn, LeavesOf, Amounts;
    var amounts := Amounts(LeavesOf(payload));
    forall leaf: ScVal | leaf.I128? && OccursIn(leaf, payload)
      ensures amounts != []
    {
      LeavesOfAreOccurrences(leaf, payload);
      AmountsOfLeaves(LeavesOf(payload), I128Value(leaf));
    }
    if amounts != [] {
      AmountsOfLeaves(LeavesOf(payload), amounts[0]);
      var leaf :| leaf in LeavesOf(payload) && leaf.I128? && I128Value(leaf) == amounts[0];
      LeavesOfAreOccurrences(leaf, payload);
    }
  }
}
