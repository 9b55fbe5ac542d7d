/** Operator alert rules (src/alert_rules.rs): the thresholds and risk bands the
    ingesters use. Two mechanisms pick among overlapping rules, the greatest id
    and the last in list order; both mean "the newest enabled rule wins". */
module AlertRules {
  import opened Wrappers

  datatype Rule = Rule(
    id: int, name: string, ruleType: string, assetCode: Option<string>, assetIssuer: Option<string>,
    threshold: real, enabled: bool)

  datatype LtvBands = LtvBands(medium: real, high: real, critical: real)

  const DEFAULT_BANDS := LtvBands(70.0, 85.0, 95.0)

  datatype RiskLevel = Low | Medium | High | Critical

  function RiskRank(level: RiskLevel): nat {
    match level
    case Critical => 3
    case High => 2
    case Medium => 1
    case Low => 0
  }

  lemma RanksInOrder()
    ensures RiskRank(Low) < RiskRank(Medium) < RiskRank(High) < RiskRank(Critical)
  {
  }

  function RiskLevelWithBands(ltv: real, bands: LtvBands): RiskLevel {
    if ltv >= bands.critical then Critical
    else if ltv >= bands.high then High
    else if ltv >= bands.medium then Medium
    else Low
  }

  /** Rank follows LTV for any three cutoffs, even ones an operator left out of
      order. */
  lemma RankIsMonotone(ltv: real, higher: real, bands: LtvBands)
    requires ltv <= higher
    ensures RiskRank(RiskLevelWithBands(ltv, bands)) <= RiskRank(RiskLevelWithBands(higher, bands))
  {
  }

  /** The matching rule with the greatest id; of equals, the last. */
  function Newest(rules: seq<Rule>, matching: Rule -> bool): Option<Rule> {
    if rules == [] then None
    else
      var best, last := Newest(rules[..|rules| - 1], matching), rules[|rules| - 1];
      if matching(last) && (best.None? || best.value.id <= last.id) then Some(last) else best
  }

  function ThresholdOr(rule: Option<Rule>, default: real): real {
    if rule.Some? then rule.value.threshold else default
  }

  function ResolveWhaleThreshold(rules: seq<Rule>, code: string, issuer: Option<string>, default: real): real {
    ThresholdOr(Newest(rules, (r: Rule) =>
      r.enabled && r.ruleType == "whale_threshold" && r.assetCode == Some(code) && r.assetIssuer == issuer), default)
  }

  /** Pools are matched on `assetCode` alone, which holds the pool id. */
  function ResolveLiquidityDropPct(rules: seq<Rule>, poolId: string, default: real): real {
    ThresholdOr(Newest(rules, (r: Rule) =>
      r.enabled && r.ruleType == "liquidity_drop_pct" && r.assetCode == Some(poolId)), default)
  }

  /** Rule `i` applies, and of those that do has the greatest id; of equals, the last. */
  ghost predicate NewestAt(rules: seq<Rule>, applies: Rule -> bool, i: nat) {
    && i < |rules| && applies(rules[i])
    && forall j: nat :: j < |rules| && applies(rules[j]) ==>
         rules[j].id < rules[i].id || (rules[j].id == rules[i].id && j <= i)
  }

  lemma {:induction false} NewestIsNewest(rules: seq<Rule>, matching: Rule -> bool)
    ensures match Newest(rules, matching)
            case Some(rule) => exists i: nat :: NewestAt(rules, matching, i) && rules[i] == rule
            case None => forall r :: r in rules ==> !matching(r)
  {
    if rules != [] {
      var n := |rules| - 1;
      var front := rules[..n];
      NewestIsNewest(front, matching);
      assert rules == front + [rules[n]];
      var best := Newest(front, matching);
      if best.Some? {
        var i: nat :| NewestAt(front, matching, i) && front[i] == best.value;
        assert NewestAt(rules, matching, if matching(rules[n]) && rules[i].id <= rules[n].id then n else i);
      } else if matching(rules[n]) {
        assert forall j :: 0 <= j < n ==> front[j] in front && rules[j] == front[j];
        assert NewestAt(rules, matching, n);
      }
    }
  }

  /** The threshold in force: the newest applying rule's, or the default when no rule
      applies. */
  ghost predicate InForce(rules: seq<Rule>, applies: Rule -> bool, default: real, threshold: real) {
    if exists r :: r in rules && applies(r) then
      exists i: nat :: NewestAt(rules, applies, i) && threshold == rules[i].threshold
    else threshold == default
  }

  /** What the newest matching rule gives is the one threshold in force. */
  lemma NewestInForce(rules: seq<Rule>, matching: Rule -> bool, applies: Rule -> bool, default: real, threshold: real)
    requires forall r :: matching(r) == applies(r)
    ensures InForce(rules, applies, default, threshold) <==> threshold == ThresholdOr(Newest(rules, matching), default)
  {
    hide Newest;
    NewestIsNewest(rules, matching);
    if Newest(rules, matching).Some? {
      var i: nat :| NewestAt(rules, matching, i) && rules[i] == Newest(rules, matching).value;
      assert rules[i] in rules && NewestAt(rules, applies, i);
    }
  }

  /** Enabled whale rules for exactly this asset. */
  ghost function WhaleRulesFor(code: string, issuer: Option<string>): Rule -> bool {
    (r: Rule) =>
      r.ruleType == "whale_threshold" && r.enabled
      && r.assetCode.Some? && r.assetCode.value == code && r.assetIssuer == issuer
  }

  lemma WhaleThresholdInForce(rules: seq<Rule>, code: string, issuer: Option<string>, default: real, threshold: real)
    ensures InForce(rules, WhaleRulesFor(code, issuer), default, threshold)
            <==> threshold == ResolveWhaleThreshold(rules, code, issuer, default)
  {
    NewestInForce(rules, (r: Rule) =>
      r.enabled && r.ruleType == "whale_threshold" && r.assetCode == Some(code) && r.assetIssuer == issuer,
      WhaleRulesFor(code, issuer), default, threshold);
  }

  /** Enabled drop rules whose code is this pool's id, whatever their issuer. */
  ghost function DropRulesFor(poolId: string): Rule -> bool {
    (r: Rule) => r.ruleType == "liquidity_drop_pct" && r.enabled && r.assetCode.Some? && r.assetCode.value == poolId
  }

  lemma DropThresholdInForce(rules: seq<Rule>, poolId: string, default: real, threshold: real)
    ensures InForce(rules, DropRulesFor(poolId), default, threshold)
            <==> threshold == ResolveLiquidityDropPct(rules, poolId, default)
  {
    NewestInForce(rules, (r: Rule) =>
      r.enabled && r.ruleType == "liquidity_drop_pct" && r.assetCode == Some(poolId), DropRulesFor(poolId), default,
      threshold);
  }

  function AsciiUpper(s: string): string {
    seq(|s|, i requires 0 <= i < |s| =>
      if 'a' <= s[i] <= 'z' then ((s[i] as int) - ('a' as int) + ('A' as int)) as char else s[i])
  }

  predicate IsBandRule(r: Rule, name: string) {
    r.enabled && r.ruleType == "ltv_band" && AsciiUpper(r.name) == name
  }

  /** The last matching rule in list order. */
  function LastMatch(rules: seq<Rule>, matching: Rule -> bool): Option<Rule> {
    if rules == [] then None
    else if matching(rules[|rules| - 1]) then Some(rules[|rules| - 1])
    else LastMatch(rules[..|rules| - 1], matching)
  }

  /** Rules as the database lists them. */
  ghost predicate OrderedById(rules: seq<Rule>) {
    forall i, j :: 0 <= i < j < |rules| ==> rules[i].id <= rules[j].id
  }

  /** In id order the last match is the newest, so the two mechanisms agree. */
  lemma {:induction false} LastIsNewest(rules: seq<Rule>, matching: Rule -> bool)
    requires OrderedById(rules)
    ensures LastMatch(rules, matching) == Newest(rules, matching)
  {
    if rules != [] {
      var n := |rules| - 1;
      LastIsNewest(rules[..n], matching);
      NewestIsNewest(rules[..n], matching);
      if Newest(rules[..n], matching).Some? {
        var i: nat :| NewestAt(rules[..n], matching, i) && rules[..n][i] == Newest(rules[..n], matching).value;
        assert rules[i].id <= rules[n].id;
      }
    }
  }

  /** Each cutoff from its last enabled rule, or the default. */
  function BandsOf(rules: seq<Rule>): LtvBands {
    LtvBands(
      ThresholdOr(LastMatch(rules, (r: Rule) => IsBandRule(r, "MEDIUM")), DEFAULT_BANDS.medium),
      ThresholdOr(LastMatch(rules, (r: Rule) => IsBandRule(r, "HIGH")), DEFAULT_BANDS.high),
      ThresholdOr(LastMatch(rules, (r: Rule) => IsBandRule(r, "CRITICAL")), DEFAULT_BANDS.critical))
  }

  /** One pass over the rules, each match overwriting one cutoff. */
  method ResolveLtvBands(rules: seq<Rule>) returns (bands: LtvBands)
    ensures bands == BandsOf(rules)
  {
    bands := DEFAULT_BANDS;
    for i := 0 to |rules|
      invariant bands == BandsOf(rules[..i])
    {
      var r := rules[i];
      assert rules[..i + 1][..i] == rules[..i] && rules[..i + 1][i] == r;
      if r.enabled && r.ruleType == "ltv_band" {
        match AsciiUpper(r.name)
        case "MEDIUM" => bands := bands.(medium := r.threshold);
        case "HIGH" => bands := bands.(high := r.threshold);
        case "CRITICAL" => bands := bands.(critical := r.threshold);
        case _ =>
      }
    }
    assert rules[..|rules|] == rules;
  }

  // ---- what the cutoffs in force are ----

  /** The name is this one but for the case of its ASCII letters. */
  ghost predicate EqualsIgnoringCase(name: string, upper: string) {
    && |name| == |upper|
    && forall i :: 0 <= i < |name| ==>
         name[i] == upper[i] || ('a' <= name[i] <= 'z' && name[i] as int - 32 == upper[i] as int)
  }

  ghost function BandRulesFor(level: string): Rule -> bool {
    (r: Rule) => r.ruleType == "ltv_band" && r.enabled && EqualsIgnoringCase(r.name, level)
  }

  /** Rule `i` is the last in list order that applies. */
  ghost predicate LastAt(rules: seq<Rule>, applies: Rule -> bool, i: nat) {
    i < |rules| && applies(rules[i]) && forall j :: i < j < |rules| ==> !applies(rules[j])
  }

  ghost predicate LastInForce(rules: seq<Rule>, applies: Rule -> bool, default: real, threshold: real) {
    if exists r :: r in rules && applies(r) then
      exists i: nat :: LastAt(rules, applies, i) && threshold == rules[i].threshold
    else threshold == default
  }

  lemma {:induction false} LastMatchIsLast(rules: seq<Rule>, matching: Rule -> bool, applies: Rule -> bool,
                                           default: real)
    requires forall r :: matching(r) == applies(r)
    ensures LastInForce(rules, applies, default, ThresholdOr(LastMatch(rules, matching), default))
  {
    if rules != [] {
      var n := |rules| - 1;
      assert rules == rules[..n] + [rules[n]];
      if applies(rules[n]) {
        assert LastAt(rules, applies, n);
      } else {
        LastMatchIsLast(rules[..n], matching, applies, default);
        var threshold := ThresholdOr(LastMatch(rules, matching), default);
        if i: nat :| LastAt(rules[..n], applies, i) && threshold == rules[..n][i].threshold {
          assert LastAt(rules, applies, i);
        }
      }
    }
  }

  lemma UpperIs(name: string, level: string)
    requires level in {"MEDIUM", "HIGH", "CRITICAL"}
    ensures AsciiUpper(name) == level <==> EqualsIgnoringCase(name, level)
  {
    if EqualsIgnoringCase(name, level) {
      assert forall i :: 0 <= i < |level| ==> 'A' <= level[i] <= 'Z';
      assert AsciiUpper(name) == level;
    }
    if AsciiUpper(name) == level {
      assert forall i :: 0 <= i < |name| ==> AsciiUpper(name)[i] == level[i];
    }
  }

  /** Each cutoff is set by the last enabled band rule of its own name, in any case,
      and is 70, 85 or 95 percent where there is none. */
  lemma BandsInForce(rules: seq<Rule>)
    ensures LastInForce(rules, BandRulesFor("MEDIUM"), 70.0, BandsOf(rules).medium)
    ensures LastInForce(rules, BandRulesFor("HIGH"), 85.0, BandsOf(rules).high)
    ensures LastInForce(rules, BandRulesFor("CRITICAL"), 95.0, BandsOf(rules).critical)
  {
    hide LastMatch, AsciiUpper, EqualsIgnoringCase;
    forall r: Rule, level | level in {"MEDIUM", "HIGH", "CRITICAL"}
      ensures IsBandRule(r, level) == BandRulesFor(level)(r)
    {
      UpperIs(r.name, level);
    }
    LastMatchIsLast(rules, (r: Rule) => IsBandRule(r, "MEDIUM"), BandRulesFor("MEDIUM"), 70.0);
    LastMatchIsLast(rules, (r: Rule) => IsBandRule(r, "HIGH"), BandRulesFor("HIGH"), 85.0);
    LastMatchIsLast(rules, (r: Rule) => IsBandRule(r, "CRITICAL"), BandRulesFor("CRITICAL"), 95.0);
  }
}
