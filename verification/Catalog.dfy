/** The pricing catalog: which rule prices an attempt, and what that rule charges. */
module Catalog {
  import opened Accounting
  import opened Common
  import opened Text
  import opened Money
  import opened Usage

  datatype MeterRate = MeterRate(metric: Metric, amount: Decimal, per: u64)

  /** `rates` are in key order. */
  datatype PricingRule = PricingRule(
    providerId: string,
    model: string,
    serviceTier: Option<string>,
    effectiveFromMs: u128,
    effectiveUntilMs: Option<u128>,
    currency: string,
    fixedCost: Option<Decimal>,
    rates: seq<MeterRate>)

  datatype PricingCatalog = PricingCatalog(version: string, source: string, rules: seq<PricingRule>)

  // ----- validation

  datatype CatalogError =
    | BlankHeader
    | BlankSelector(i: nat)
    | BadCurrency(i: nat)
    | BadWindow(i: nat)
    | NoPrice(i: nat)
    | DuplicateWindow(i: nat)
    | Overlapping(i: nat, j: nat)
    | ZeroPer(i: nat)

  /** An open window is compared as one that ends at the last instant. */
  function WindowEnd(r: PricingRule): u128 {
    match r.effectiveUntilMs case Some(until) => until case None => U128_MAX
  }

  predicate SameSelector(r: PricingRule, o: PricingRule) {
    r.providerId == o.providerId && r.model == o.model && r.serviceTier == o.serviceTier
  }

  predicate Overlaps(r: PricingRule, o: PricingRule) {
    SameSelector(r, o) && r.effectiveFromMs < WindowEnd(o) && o.effectiveFromMs < WindowEnd(r)
  }

  predicate SameWindow(r: PricingRule, o: PricingRule) {
    SameSelector(r, o) && r.effectiveFromMs == o.effectiveFromMs && r.effectiveUntilMs == o.effectiveUntilMs
  }

  predicate EmptyWindow(r: PricingRule) {
    r.effectiveUntilMs.Some? && r.effectiveUntilMs.value <= r.effectiveFromMs
  }

  predicate HasZeroPer(r: PricingRule) {
    exists k :: 0 <= k < |r.rates| && r.rates[k].per == 0
  }

  /** The defect an error names, in the catalog as given. */
  predicate Defect(c: PricingCatalog, e: CatalogError) {
    match e
    case BlankHeader => Trim(c.version) == "" || Trim(c.source) == ""
    case BlankSelector(i) => i < |c.rules| && (Trim(c.rules[i].providerId) == "" || Trim(c.rules[i].model) == "")
    case BadCurrency(i) => i < |c.rules| && !ValidCurrency(c.rules[i].currency)
    case BadWindow(i) => i < |c.rules| && EmptyWindow(c.rules[i])
    case NoPrice(i) => i < |c.rules| && c.rules[i].fixedCost.None? && c.rules[i].rates == []
    case DuplicateWindow(i) => i < |c.rules| && exists k :: 0 <= k < i && SameWindow(c.rules[k], c.rules[i])
    case Overlapping(i, j) => i < j < |c.rules| && Overlaps(c.rules[i], c.rules[j])
    case ZeroPer(i) => i < |c.rules| && HasZeroPer(c.rules[i])
  }

  ghost predicate ValidCatalog(c: PricingCatalog) {
    forall e: CatalogError :: !Defect(c, e)
  }

  /** Rule `i` shows none of the defects, against all rules before and after it. */
  ghost predicate RuleIsFine(c: PricingCatalog, i: nat)
    requires i < |c.rules|
  {
    && !Defect(c, BlankSelector(i)) && !Defect(c, BadCurrency(i)) && !Defect(c, BadWindow(i))
    && !Defect(c, NoPrice(i)) && !Defect(c, DuplicateWindow(i)) && !Defect(c, ZeroPer(i))
    && forall j :: i < j < |c.rules| ==> !Overlaps(c.rules[i], c.rules[j])
  }

  lemma FineRulesAreValid(c: PricingCatalog)
    requires !Defect(c, BlankHeader)
    requires forall i :: 0 <= i < |c.rules| ==> RuleIsFine(c, i)
    ensures ValidCatalog(c)
  {
    forall e: CatalogError
      ensures !Defect(c, e)
    {
      if !e.BlankHeader? && e.i < |c.rules| {
        assert RuleIsFine(c, e.i);
      }
    }
  }

  type WindowKey = (string, string, Option<string>, u128, Option<u128>)

  function KeyOf(r: PricingRule): WindowKey {
    (r.providerId, r.model, r.serviceTier, r.effectiveFromMs, r.effectiveUntilMs)
  }

  /** Accepts exactly the catalogs without a defect, and names a real defect otherwise. */
  method Validate(c: PricingCatalog) returns (r: Option<CatalogError>)
    ensures r.None? <==> ValidCatalog(c)
    ensures r.Some? ==> Defect(c, r.value)
  {
    hide Trim, ValidCurrency;
    if Trim(c.version) == "" || Trim(c.source) == "" {
      assert Defect(c, BlankHeader);
      return Some(BlankHeader);
    }
    var exactWindows: set<WindowKey> := {};
    for i := 0 to |c.rules|
      invariant forall k :: 0 <= k < i ==> RuleIsFine(c, k)
      invariant forall key :: key in exactWindows <==> exists k :: 0 <= k < i && key == KeyOf(c.rules[k])
    {
      r := ValidateRule(c, i, exactWindows);
      if r.Some? {
        return;
      }
      exactWindows := exactWindows + {KeyOf(c.rules[i])};
    }
    FineRulesAreValid(c);
    return None;
  }

  method ValidateRule(c: PricingCatalog, i: nat, exactWindows: set<WindowKey>) returns (r: Option<CatalogError>)
    requires i < |c.rules|
    requires forall key :: key in exactWindows <==> exists k :: 0 <= k < i && key == KeyOf(c.rules[k])
    ensures r.None? ==> RuleIsFine(c, i)
    ensures r.Some? ==> Defect(c, r.value)
  {
    hide Trim, ValidCurrency;
    var rule := c.rules[i];
    if Trim(rule.providerId) == "" || Trim(rule.model) == "" {
      return Some(BlankSelector(i));
    }
    if !ValidCurrency(rule.currency) {
      return Some(BadCurrency(i));
    }
    if rule.effectiveUntilMs.Some? && rule.effectiveUntilMs.value <= rule.effectiveFromMs {
      return Some(BadWindow(i));
    }
    if rule.fixedCost.None? && rule.rates == [] {
      return Some(NoPrice(i));
    }
    if KeyOf(rule) in exactWindows {
      return Some(DuplicateWindow(i));
    }
    assert !Defect(c, DuplicateWindow(i));
    for j := i + 1 to |c.rules|
      invariant forall k :: i < k < j ==> !Overlaps(rule, c.rules[k])
    {
      if Overlaps(rule, c.rules[j]) {
        return Some(Overlapping(i, j));
      }
    }
    for k := 0 to |rule.rates|
      invariant forall n :: 0 <= n < k ==> rule.rates[n].per != 0
    {
      if rule.rates[k].per == 0 {
        return Some(ZeroPer(i));
      }
    }
    return None;
  }

  // ----- selection

  predicate Matches(r: PricingRule, a: Attempt) {
    && r.providerId == a.providerId && r.model == ModelForPricing(a) && r.serviceTier == a.serviceTier
    && a.occurredAtMs >= r.effectiveFromMs
    && (r.effectiveUntilMs.Some? ==> a.occurredAtMs < r.effectiveUntilMs.value)
  }

  function MatchingRules(rules: seq<PricingRule>, a: Attempt): seq<PricingRule> {
    if rules == [] then []
    else if Matches(rules[0], a) then [rules[0]] + MatchingRules(rules[1..], a)
    else MatchingRules(rules[1..], a)
  }

  datatype SelectError = NoEffectiveRule | AmbiguousRules

  function MatchingRule(rules: seq<PricingRule>, a: Attempt): Result<PricingRule, SelectError> {
    var matching := MatchingRules(rules, a);
    if |matching| == 1 then Ok(matching[0])
    else if matching == [] then Err(NoEffectiveRule)
    else Err(AmbiguousRules)
  }

  predicate MatchesAt(rules: seq<PricingRule>, a: Attempt, i: int) {
    0 <= i < |rules| && Matches(rules[i], a)
  }

  lemma {:induction false} NoneMatching(rules: seq<PricingRule>, a: Attempt)
    ensures MatchingRules(rules, a) == [] <==> forall i :: !MatchesAt(rules, a, i)
  {
    hide Matches;
    if rules != [] {
      NoneMatching(rules[1..], a);
      assert MatchesAt(rules, a, 0) <==> Matches(rules[0], a);
      forall i | MatchesAt(rules[1..], a, i)
        ensures MatchesAt(rules, a, i + 1)
      {
      }
      assert forall i :: MatchesAt(rules, a, i) && i > 0 ==> MatchesAt(rules[1..], a, i - 1);
    }
  }

  /** Two rules are found exactly when two positions of the catalog match. */
  lemma {:induction false} TwoMatching(rules: seq<PricingRule>, a: Attempt)
    ensures |MatchingRules(rules, a)| >= 2 <==>
            exists i, j :: i < j && MatchesAt(rules, a, i) && MatchesAt(rules, a, j)
  {
    hide Matches;
    if rules != [] {
      var rest := rules[1..];
      TwoMatching(rest, a);
      NoneMatching(rest, a);
      assert MatchesAt(rules, a, 0) <==> Matches(rules[0], a);
      assert forall i :: i > 0 ==> (MatchesAt(rules, a, i) <==> MatchesAt(rest, a, i - 1));
      if |MatchingRules(rules, a)| >= 2 {
        if Matches(rules[0], a) {
          var j :| MatchesAt(rest, a, j);
          assert MatchesAt(rules, a, 0) && MatchesAt(rules, a, j + 1);
        } else {
          var i, j :| i < j && MatchesAt(rest, a, i) && MatchesAt(rest, a, j);
          assert MatchesAt(rules, a, i + 1) && MatchesAt(rules, a, j + 1);
        }
      }
      if i, j :| i < j && MatchesAt(rules, a, i) && MatchesAt(rules, a, j) {
        assert MatchesAt(rest, a, j - 1);
        if i > 0 {
          assert MatchesAt(rest, a, i - 1);
        }
      }
    }
  }

  /** Two rules of a valid catalog can only match together at the last instant, both with open ends. */
  lemma TwoMatchesMeetAtTheEnd(c: PricingCatalog, a: Attempt, i: int, j: int)
    requires ValidCatalog(c) && i < j && MatchesAt(c.rules, a, i) && MatchesAt(c.rules, a, j)
    ensures a.occurredAtMs == U128_MAX
    ensures c.rules[i].effectiveUntilMs.None? && c.rules[j].effectiveUntilMs.None?
  {
    assert !Defect(c, Overlapping(i, j));
  }

  predicate OpenMatch(rules: seq<PricingRule>, a: Attempt, i: int) {
    MatchesAt(rules, a, i) && rules[i].effectiveUntilMs.None?
  }

  /**
   * Selection from a valid catalog is ambiguous if and only if the attempt carries the very
   * last timestamp and two rules for its selector have no end.
   */
  lemma AmbiguousIff(c: PricingCatalog, a: Attempt)
    requires ValidCatalog(c)
    ensures MatchingRule(c.rules, a) == Err(AmbiguousRules) <==>
            && a.occurredAtMs == U128_MAX
            && exists i, j :: i < j && OpenMatch(c.rules, a, i) && OpenMatch(c.rules, a, j)
  {
    hide ValidCatalog, Matches;
    TwoMatching(c.rules, a);
    if i, j :| i < j && MatchesAt(c.rules, a, i) && MatchesAt(c.rules, a, j) {
      TwoMatchesMeetAtTheEnd(c, a, i, j);
      assert OpenMatch(c.rules, a, i) && OpenMatch(c.rules, a, j);
    }
    assert forall i :: OpenMatch(c.rules, a, i) ==> MatchesAt(c.rules, a, i);
  }

  const TWO_OPEN: PricingCatalog :=
    PricingCatalog("1", "file", [
      PricingRule("p", "m", None, 0, None, "USD", Some(1), []),
      PricingRule("p", "m", None, U128_MAX, None, "USD", Some(2), [])])

  /** An attempt at the last instant, for the selector of both rules. */
  const AT_THE_END: Attempt := Attempt(1, "p", "m", None, None, None, None, U128_MAX, NO_USAGE, None, None)

  /** Such a catalog is accepted: the second window is empty when its open end is compared. */
  lemma AmbiguousAtTheLastInstant()
    ensures ValidCatalog(TWO_OPEN)
    ensures MatchingRule(TWO_OPEN.rules, AT_THE_END) == Err(AmbiguousRules)
  {
    hide ValidCatalog, RuleIsFine, Defect, MatchingRule;
    TwoOpenHeader();
    TwoOpenRule(0);
    TwoOpenRule(1);
    FineRulesAreValid(TWO_OPEN);
    assert OpenMatch(TWO_OPEN.rules, AT_THE_END, 0) && OpenMatch(TWO_OPEN.rules, AT_THE_END, 1);
    AmbiguousIff(TWO_OPEN, AT_THE_END);
  }

  lemma TwoOpenHeader()
    ensures !Defect(TWO_OPEN, BlankHeader) && Trim("p") != "" && Trim("m") != ""
  {
    TrimIsTrimmed("1");
    TrimIsTrimmed("file");
    TrimIsTrimmed("p");
    TrimIsTrimmed("m");
    hide Trim;
  }

  lemma TwoOpenRule(i: nat)
    requires i < 2
    ensures RuleIsFine(TWO_OPEN, i)
  {
    TwoOpenHeader();
    hide Trim;
    var r := TWO_OPEN.rules[i];
    assert r.providerId == "p" && r.model == "m" && r.currency == "USD";
    assert ValidCurrency("USD");
    hide ValidCurrency;
    assert !SameWindow(TWO_OPEN.rules[0], TWO_OPEN.rules[1]);
  }

  /** The matching rules, counted: each as often as it is in the catalog. */
  lemma {:induction false} MatchingCount(rules: seq<PricingRule>, a: Attempt, r: PricingRule)
    ensures multiset(MatchingRules(rules, a))[r] == if Matches(r, a) then multiset(rules)[r] else 0
  {
    hide Matches;
    if rules != [] {
      MatchingCount(rules[1..], a, r);
      HeadTail(rules);
    }
  }

  /** The order of the rules never matters, valid catalog or not. */
  lemma SelectionIgnoresOrder(rules: seq<PricingRule>, other: seq<PricingRule>, a: Attempt)
    requires multiset(rules) == multiset(other)
    ensures MatchingRule(rules, a) == MatchingRule(other, a)
  {
    hide Matches;
    var x, y := MatchingRules(rules, a), MatchingRules(other, a);
    forall r: PricingRule
      ensures multiset(x)[r] == multiset(y)[r]
    {
      MatchingCount(rules, a, r);
      MatchingCount(other, a, r);
    }
    assert multiset(x) == multiset(y);
    assert |x| == |multiset(x)| == |multiset(y)| == |y|;
    if |x| == 1 {
      assert x == [x[0]] && y == [y[0]];
      assert x[0] in multiset(x) && x[0] in multiset(y);
    }
  }

  /** The rule is for this provider, model and tier, and in force when the attempt was made. */
  predicate InForce(r: PricingRule, a: Attempt) {
    && r.providerId == a.providerId
    && (a.resolvedModel == Some(r.model) || (a.resolvedModel.None? && a.requestedModel == r.model))
    && r.serviceTier == a.serviceTier
    && r.effectiveFromMs <= a.occurredAtMs
    && (r.effectiveUntilMs.None? || a.occurredAtMs < r.effectiveUntilMs.value)
  }

  /** Position `i` holds the only rule in force. */
  predicate OnlyInForce(rules: seq<PricingRule>, a: Attempt, i: nat) {
    && i < |rules| && InForce(rules[i], a)
    && forall j :: 0 <= j < |rules| && j != i ==> !InForce(rules[j], a)
  }

  lemma InForceMatches(r: PricingRule, a: Attempt)
    ensures Matches(r, a) <==> InForce(r, a)
  {
  }

  lemma {:induction false} OneMatching(rules: seq<PricingRule>, a: Attempt, i: nat)
    requires MatchesAt(rules, a, i) && forall j :: j != i ==> !MatchesAt(rules, a, j)
    ensures MatchingRules(rules, a) == [rules[i]]
  {
    hide Matches;
    var rest := rules[1..];
    assert MatchesAt(rules, a, 0) <==> Matches(rules[0], a);
    assert forall j :: j >= 0 ==> (MatchesAt(rest, a, j) <==> MatchesAt(rules, a, j + 1));
    if i == 0 {
      NoneMatching(rest, a);
    } else {
      OneMatching(rest, a, i - 1);
    }
  }

  /** Selection finds a rule if and only if it is the only one in force; and none only when none is. */
  lemma SelectedIff(rules: seq<PricingRule>, a: Attempt)
    ensures forall r :: MatchingRule(rules, a) == Ok(r) <==>
                        exists i: nat :: OnlyInForce(rules, a, i) && r == rules[i]
    ensures MatchingRule(rules, a) == Err(NoEffectiveRule) <==>
            forall i :: 0 <= i < |rules| ==> !InForce(rules[i], a)
  {
    forall i | 0 <= i < |rules|
      ensures MatchesAt(rules, a, i) <==> InForce(rules[i], a)
    {
      InForceMatches(rules[i], a);
    }
    hide Matches, InForce, MatchingRules;
    NoneMatching(rules, a);
    TwoMatching(rules, a);
    forall i: nat | OnlyInForce(rules, a, i)
      ensures MatchingRule(rules, a) == Ok(rules[i])
    {
      OneMatching(rules, a, i);
    }
    if MatchingRule(rules, a).Ok? {
      var i :| MatchesAt(rules, a, i);
      assert OnlyInForce(rules, a, i);
    }
  }

  // ----- pricing

  datatype LineItem = LineItem(metric: Metric, quantity: u64, amount: Decimal)

  datatype CostPrecision = Actual | Calculated | Estimated

  datatype CostResolution =
    | Priced(
        money: Money,
        source: string,
        precision: CostPrecision,
        pricingVersion: Option<string>,
        items: seq<LineItem>)
    | Unpriced(reason: string)

  /** `amount * quantity / per`, rounded and checked as the decimal type does it. */
  type Price = (MeterRate, u64) -> Option<Decimal>

  /** What pricing takes from elsewhere: decimal arithmetic, and how an optional name is shown in a message. */
  datatype Library = Library(price: Price, round: Rounding, show: Option<string> -> string)

  function Quantity(a: Attempt, m: Metric): u64 {
    if m in a.usage.metrics then a.usage.metrics[m] else 0
  }

  function SumOf(items: seq<LineItem>): int {
    if items == [] then 0 else items[0].amount + SumOf(items[1..])
  }

  function FixedLine(r: PricingRule): seq<LineItem> {
    match r.fixedCost
    case Some(fixed) => [LineItem(OtherMetric("request"), 1, fixed)]
    case None => []
  }

  function FixedAmount(r: PricingRule): Decimal {
    match r.fixedCost case Some(fixed) => fixed case None => NOTHING
  }

  /** One line for every rate, in order; none when one of them has no price. */
  function MeterLines(price: Price, rates: seq<MeterRate>, a: Attempt): Option<seq<LineItem>> {
    if rates == [] then Some([])
    else
      var quantity := Quantity(a, rates[0].metric);
      match price(rates[0], quantity)
      case None => None
      case Some(amount) =>
        match MeterLines(price, rates[1..], a)
        case None => None
        case Some(later) => Some([LineItem(rates[0].metric, quantity, amount)] + later)
  }

  /** Adding the lines one after the other, as long as the total stays in range. */
  function CheckedSum(round: Rounding, start: Decimal, items: seq<LineItem>): Option<Decimal>
    decreases |items|
  {
    if items == [] then Some(start)
    else match CheckedAdd(round, start, items[0].amount)
      case None => None
      case Some(total) => CheckedSum(round, total, items[1..])
  }

  function RulePrice(lib: Library, r: PricingRule, a: Attempt): Option<(Decimal, seq<LineItem>)> {
    match MeterLines(lib.price, r.rates, a)
    case None => None
    case Some(lines) =>
      match CheckedSum(lib.round, FixedAmount(r), lines)
      case None => None
      case Some(total) => Some((total, FixedLine(r) + lines))
  }

  /** Prices an attempt by a rule, giving up at the first line or total that is out of range. */
  method PriceByRule(lib: Library, r: PricingRule, a: Attempt) returns (result: Option<(Decimal, seq<LineItem>)>)
    ensures result == RulePrice(lib, r, a)
  {
    hide Fits;
    var total: Decimal := if r.fixedCost.Some? then r.fixedCost.value else NOTHING;
    var items: seq<LineItem> := [];
    if r.fixedCost.Some? {
      items := items + [LineItem(OtherMetric("request"), 1, r.fixedCost.value)];
    }
    ghost var lines: seq<LineItem> := [];
    assert items == FixedLine(r) + lines && r.rates[0..] == r.rates;
    ghost var all := MeterLines(lib.price, r.rates, a);
    assert all.Some? ==> [] + all.value == all.value;
    for k := 0 to |r.rates|
      invariant items == FixedLine(r) + lines
      invariant var rest := MeterLines(lib.price, r.rates[k..], a);
                && (all.None? <==> rest.None?)
                && (all.Some? ==> all.value == lines + rest.value)
      invariant CheckedSum(lib.round, FixedAmount(r), lines) == Some(total)
    {
      var rate := r.rates[k];
      assert r.rates[k..][0] == rate && r.rates[k..][1..] == r.rates[k + 1..];
      var quantity := Quantity(a, rate.metric);
      var amount := lib.price(rate, quantity);
      if amount.None? {
        return None;
      }
      var item := LineItem(rate.metric, quantity, amount.value);
      var sum := CheckedAdd(lib.round, total, amount.value);
      ghost var rest := MeterLines(lib.price, r.rates[k + 1..], a);
      CheckedSumStep(lib.round, FixedAmount(r), lines, item);
      if all.Some? {
        Assoc(lines, [item], rest.value);
      }
      if sum.None? {
        if all.Some? {
          CheckedSumPrefix(lib.round, FixedAmount(r), lines + [item], rest.value);
        }
        return None;
      }
      total := sum.value;
      Assoc(FixedLine(r), lines, [item]);
      items, lines := items + [item], lines + [item];
    }
    assert lines + [] == lines;
    return Some((total, items));
  }

  lemma {:induction false} CheckedSumStep(round: Rounding, start: Decimal, items: seq<LineItem>, item: LineItem)
    ensures CheckedSum(round, start, items + [item]) ==
            match CheckedSum(round, start, items)
            case None => None
            case Some(total) => CheckedAdd(round, total, item.amount)
    decreases |items|
  {
    hide Fits;
    if items == [] {
      assert items + [item] == [item] && [item][1..] == [];
    } else {
      assert (items + [item])[1..] == items[1..] + [item];
      if CheckedAdd(round, start, items[0].amount).Some? {
        CheckedSumStep(round, CheckedAdd(round, start, items[0].amount).value, items[1..], item);
      }
    }
  }

  lemma {:induction false} CheckedSumPrefix(round: Rounding, start: Decimal, items: seq<LineItem>,
                                            more: seq<LineItem>)
    requires CheckedSum(round, start, items).None?
    ensures CheckedSum(round, start, items + more).None?
    decreases |items|
  {
    hide Fits;
    assert (items + more)[1..] == items[1..] + more;
    if CheckedAdd(round, start, items[0].amount).Some? {
      CheckedSumPrefix(round, CheckedAdd(round, start, items[0].amount).value, items[1..], more);
    }
  }

  // ----- a price is the sum of its lines

  /** Every running total is an amount without rounding. */
  predicate SumsFit(start: int, items: seq<LineItem>)
    decreases |items|
  {
    Fits(start) && (items != [] ==> SumsFit(start + items[0].amount, items[1..]))
  }

  lemma {:induction false} CheckedSumExact(round: Rounding, start: Decimal, items: seq<LineItem>)
    requires SumsFit(start, items)
    ensures CheckedSum(round, start, items) == Some(start + SumOf(items))
    decreases |items|
  {
    hide Fits, CheckedAdd;
    if items != [] {
      AddingIsExact(round, start, items[0].amount);
      CheckedSumExact(round, start + items[0].amount, items[1..]);
    }
  }

  /** The checked total of the first `n` lines is exactly their sum. */
  ghost predicate ExactAfter(round: Rounding, start: Decimal, items: seq<LineItem>, n: nat) {
    n <= |items| && CheckedSum(round, start, items[..n]) == Some(start + SumOf(items[..n]))
  }

  lemma ExactAfterFirst(round: Rounding, start: Decimal, items: seq<LineItem>, n: nat)
    requires items != [] && Fits(start + items[0].amount) && n < |items|
    ensures ExactAfter(round, start, items, n + 1) <==> ExactAfter(round, start + items[0].amount, items[1..], n)
  {
    hide Fits, CheckedAdd;
    AddingIsExact(round, start, items[0].amount);
    Slice(items, 1, n + 1);
  }

  lemma FirstTotalFits(round: Rounding, start: Decimal, items: seq<LineItem>)
    requires items != [] && ExactAfter(round, start, items, 1)
    ensures Fits(start + items[0].amount)
  {
    hide Fits;
    var first := items[..1];
    assert first[1..] == [];
    assert SumOf(first) == items[0].amount;
    var total: Decimal := CheckedSum(round, start, first).value;
  }

  /** The checked total is exact after every line, if and only if no running total has to be rounded. */
  lemma {:induction false} CheckedSumIff(round: Rounding, start: Decimal, items: seq<LineItem>)
    ensures SumsFit(start, items) <==> forall n: nat :: n <= |items| ==> ExactAfter(round, start, items, n)
    decreases |items|
  {
    hide Fits, ExactAfter, CheckedSum;
    NothingAddedIsExact(round, start, items);
    if items != [] {
      if ExactAfter(round, start, items, 1) {
        FirstTotalFits(round, start, items);
      }
      if Fits(start + items[0].amount) {
        var next, rest := start + items[0].amount, items[1..];
        CheckedSumIff(round, next, rest);
        forall n: nat | n < |items|
          ensures ExactAfter(round, start, items, n + 1) <==> ExactAfter(round, next, rest, n)
        {
          ExactAfterFirst(round, start, items, n);
        }
        assert forall n: nat :: 0 < n <= |items| ==>
                 (ExactAfter(round, start, items, n) <==> ExactAfter(round, next, rest, n - 1));
      }
    }
  }

  lemma NothingAddedIsExact(round: Rounding, start: Decimal, items: seq<LineItem>)
    ensures ExactAfter(round, start, items, 0)
  {
  }

  /** Every rate is charged once, for the quantity the attempt metered. */
  lemma {:induction false} LinesChargeRates(price: Price, rates: seq<MeterRate>, a: Attempt)
    ensures MeterLines(price, rates, a).Some? <==>
            forall k :: 0 <= k < |rates| ==> price(rates[k], Quantity(a, rates[k].metric)).Some?
    ensures MeterLines(price, rates, a).Some? ==>
              var lines := MeterLines(price, rates, a).value;
              && |lines| == |rates|
              && forall k :: 0 <= k < |rates| ==>
                   && lines[k].metric == rates[k].metric && lines[k].quantity == Quantity(a, rates[k].metric)
                   && price(rates[k], lines[k].quantity) == Some(lines[k].amount)
  {
    hide Quantity;
    if rates != [] {
      LinesChargeRates(price, rates[1..], a);
      assert forall k :: 1 <= k < |rates| ==> rates[k] == rates[1..][k - 1];
      assert forall k :: 0 <= k < |rates| - 1 ==> rates[1..][k] == rates[k + 1];
    }
  }

  /**
   * A catalog price has one line for the fixed cost, if any, and one for every rate; and money is
   * conserved: it is exactly the sum of its lines when no running total has to be rounded.
   */
  lemma PriceIsSumOfLines(lib: Library, r: PricingRule, a: Attempt)
    requires RulePrice(lib, r, a).Some?
    ensures var (total, items) := RulePrice(lib, r, a).value;
            var lines := MeterLines(lib.price, r.rates, a).value;
            && (SumsFit(FixedAmount(r), lines) ==> total == SumOf(items))
            && |lines| == |r.rates| && items == FixedLine(r) + lines
  {
    hide Fits;
    var lines := MeterLines(lib.price, r.rates, a).value;
    LinesChargeRates(lib.price, r.rates, a);
    if SumsFit(FixedAmount(r), lines) {
      CheckedSumExact(lib.round, FixedAmount(r), lines);
    }
    if r.fixedCost.Some? {
      assert (FixedLine(r) + lines)[1..] == lines;
    } else {
      assert FixedLine(r) + lines == lines;
    }
  }

  /** The lines in terms of the attempt's own meters, and the line of a fixed cost. */
  lemma LinesAreMetered(lib: Library, r: PricingRule, a: Attempt)
    requires RulePrice(lib, r, a).Some?
    ensures var items := RulePrice(lib, r, a).value.1; var fixed := if r.fixedCost.Some? then 1 else 0;
            && |items| == fixed + |r.rates|
            && (r.fixedCost.Some? ==> items[0] == LineItem(OtherMetric("request"), 1, r.fixedCost.value))
            && forall k :: 0 <= k < |r.rates| ==>
                 var line, rate := items[fixed + k], r.rates[k];
                 && line.metric == rate.metric
                 && line.quantity == (if rate.metric in a.usage.metrics then a.usage.metrics[rate.metric] else 0)
                 && lib.price(rate, line.quantity) == Some(line.amount)
  {
    hide CheckedSum;
    LinesChargeRates(lib.price, r.rates, a);
  }

  function Named(a: Attempt): string {
    a.providerId + "/" + ModelForPricing(a)
  }

  function Why(lib: Library, e: SelectError, a: Attempt): string {
    match e
    case NoEffectiveRule => "no effective rule for " + Named(a) + " tier " + lib.show(a.serviceTier)
    case AmbiguousRules => "ambiguous effective rules for " + Named(a)
  }

  /** `CatalogCostResolver::resolve`: priced exactly when a rule is selected that can charge the attempt. */
  method Resolve(c: PricingCatalog, targetCurrency: string, lib: Library, a: Attempt)
    returns (r: CostResolution)
    ensures r.Priced? <==>
            && MatchingRule(c.rules, a).Ok?
            && var rule := MatchingRule(c.rules, a).value;
            && rule.currency == targetCurrency && ValidCurrency(rule.currency)
            && (a.usage.reported || rule.rates == [])
            && RulePrice(lib, rule, a).Some?
    ensures r.Priced? ==>
              var (total, items) := RulePrice(lib, MatchingRule(c.rules, a).value, a).value;
              r == Priced(Money(total, targetCurrency), "catalog:" + c.source, Calculated, Some(c.version), items)
    ensures MatchingRule(c.rules, a).Err? ==> r == Unpriced(Why(lib, MatchingRule(c.rules, a).error, a))
    ensures MatchingRule(c.rules, a).Ok? ==>
              var rule := MatchingRule(c.rules, a).value;
              if rule.currency != targetCurrency then
                r == Unpriced("catalog rule currency `" + rule.currency + "` differs from target `"
                              + targetCurrency + "`")
              else if !a.usage.reported && rule.rates != [] then
                r == Unpriced("provider usage missing for metered catalog rule")
              else if RulePrice(lib, rule, a).None? then r == Unpriced("decimal arithmetic overflow")
              else !ValidCurrency(targetCurrency) ==>
                     r == Unpriced("invalid currency or unit `" + targetCurrency + "`")
  {
    hide RulePrice, ValidCurrency, MatchingRules, Fits;
    var rule := MatchingRule(c.rules, a);
    if rule.Err? {
      return Unpriced(Why(lib, rule.error, a));
    }
    if rule.value.currency != targetCurrency {
      return Unpriced("catalog rule currency `" + rule.value.currency + "` differs from target `"
                      + targetCurrency + "`");
    }
    if !a.usage.reported && rule.value.rates != [] {
      return Unpriced("provider usage missing for metered catalog rule");
    }
    var priced := PriceByRule(lib, rule.value, a);
    if priced.None? {
      return Unpriced("decimal arithmetic overflow");
    }
    if !ValidCurrency(rule.value.currency) {
      return Unpriced("invalid currency or unit `" + rule.value.currency + "`");
    }
    return Priced(Money(priced.value.0, rule.value.currency), "catalog:" + c.source, Calculated, Some(c.version),
                  priced.value.1);
  }
}
