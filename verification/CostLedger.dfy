/** The run's cost ledger: choosing a price for each attempt, adding prices up, and reporting against a budget. */
module CostLedger {
  import opened Accounting
  import opened Common
  import opened Text
  import opened Money
  import opened Usage
  import opened Catalog

  // ----- the chain of price sources

  datatype Resolver = Resolver(name: string, resolve: Attempt -> CostResolution)

  function Reason(r: Resolver, a: Attempt): string
    requires r.resolve(a).Unpriced?
  {
    r.name + ": " + r.resolve(a).reason
  }

  predicate NonePrices(resolvers: seq<Resolver>, a: Attempt) {
    forall i :: 0 <= i < |resolvers| ==> resolvers[i].resolve(a).Unpriced?
  }

  function Reasons(resolvers: seq<Resolver>, a: Attempt): seq<string>
    requires NonePrices(resolvers, a)
  {
    seq(|resolvers|, i requires 0 <= i < |resolvers| => Reason(resolvers[i], a))
  }

  predicate FirstToPrice(resolvers: seq<Resolver>, a: Attempt, i: nat) {
    i < |resolvers| && resolvers[i].resolve(a).Priced? && NonePrices(resolvers[..i], a)
  }

  /** The first source that prices the attempt decides; if none does, every reason is kept, in order. */
  method ResolveByChain(resolvers: seq<Resolver>, a: Attempt) returns (r: CostResolution)
    ensures r.Unpriced? <==> NonePrices(resolvers, a)
    ensures r.Priced? ==> exists i: nat :: FirstToPrice(resolvers, a, i) && r == resolvers[i].resolve(a)
    ensures NonePrices(resolvers, a) ==>
              r == Unpriced(if resolvers == [] then "no billing sources configured"
                            else Join(Reasons(resolvers, a), "; "))
  {
    var reasons: seq<string> := [];
    for i := 0 to |resolvers|
      invariant |reasons| == i && NonePrices(resolvers[..i], a)
      invariant forall k :: 0 <= k < i ==> resolvers[k].resolve(a).Unpriced?
      invariant forall k :: 0 <= k < i ==> reasons[k] == Reason(resolvers[k], a)
    {
      var answer := resolvers[i].resolve(a);
      if answer.Priced? {
        assert FirstToPrice(resolvers, a, i);
        return answer;
      }
      reasons := reasons + [resolvers[i].name + ": " + answer.reason];
      assert resolvers[..i + 1] == resolvers[..i] + [resolvers[i]];
    }
    assert resolvers[..|resolvers|] == resolvers;
    assert reasons == Reasons(resolvers, a);
    return Unpriced(if reasons == [] then "no billing sources configured" else Join(reasons, "; "));
  }

  // ----- the ledger

  /** One attempt's row: priced with an amount, its source and its lines, or unpriced with a reason. */
  datatype RequestCost = RequestCost(
    iteration: u32,
    attempt: nat,
    providerId: string,
    requestId: Option<string>,
    model: string,
    serviceTier: Option<string>,
    httpStatus: Option<nat>,
    usage: ExtractedUsage,
    amount: Option<Money>,
    source: Option<string>,
    precision: Option<CostPrecision>,
    pricingVersion: Option<string>,
    items: seq<LineItem>,
    reason: Option<string>)

  datatype Entry = Entry(iteration: u32, attempt: Attempt, resolution: CostResolution)

  datatype Ledger = Ledger(
    targetCurrency: string,
    knownTotal: Decimal,
    pricedRequests: u32,
    unpricedRequests: u32,
    requests: seq<RequestCost>)

  function NewLedger(targetCurrency: string): Ledger {
    Ledger(targetCurrency, NOTHING, 0, 0, [])
  }

  function SatInc(n: u32): u32 {
    if n < U32_MAX then n + 1 else U32_MAX
  }

  const NOT_BOOKED: string := "currency mismatch or total overflow"

  function UnpricedRow(iteration: u32, a: Attempt, reason: string): RequestCost {
    RequestCost(iteration, a.attempt, a.providerId, a.requestId, ModelForPricing(a), a.serviceTier, a.status, a.usage,
                None, None, None, None, [], Some(reason))
  }

  function PricedRow(iteration: u32, a: Attempt, r: CostResolution): RequestCost
    requires r.Priced?
  {
    RequestCost(iteration, a.attempt, a.providerId, a.requestId, ModelForPricing(a), a.serviceTier, a.status, a.usage,
                Some(r.money), Some(r.source), Some(r.precision), r.pricingVersion, r.items, None)
  }

  function RecordedUnpriced(l: Ledger, iteration: u32, attempt: Attempt, reason: string): Ledger {
    l.(unpricedRequests := SatInc(l.unpricedRequests),
       requests := l.requests + [UnpricedRow(iteration, attempt, reason)])
  }

  /** The total after booking the entry, if it can be booked. */
  function NewTotal(round: Rounding, l: Ledger, e: Entry): Option<Decimal> {
    if e.resolution.Priced? && e.resolution.money.currency == l.targetCurrency then
      CheckedAdd(round, l.knownTotal, e.resolution.money.amount)
    else None
  }

  function Recorded(round: Rounding, l: Ledger, e: Entry): Ledger {
    match NewTotal(round, l, e)
    case Some(total) =>
      l.(knownTotal := total,
         pricedRequests := SatInc(l.pricedRequests),
         requests := l.requests + [PricedRow(e.iteration, e.attempt, e.resolution)])
    case None =>
      RecordedUnpriced(l, e.iteration, e.attempt,
                       if e.resolution.Unpriced? then e.resolution.reason else NOT_BOOKED)
  }

  function RecordAll(round: Rounding, l: Ledger, entries: seq<Entry>): Ledger
    decreases |entries|
  {
    if entries == [] then l else RecordAll(round, Recorded(round, l, entries[0]), entries[1..])
  }

  // ----- sums over rows

  function AmountOf(row: RequestCost): Decimal {
    match row.amount case Some(money) => money.amount case None => NOTHING
  }

  /** The exact sum of the priced rows. */
  function PricedTotal(rows: seq<RequestCost>): int {
    if rows == [] then 0 else PricedTotal(rows[..|rows| - 1]) + AmountOf(rows[|rows| - 1])
  }

  /** The priced rows added up one after the other, rounding where an amount does not fit. */
  function Booked(round: Rounding, rows: seq<RequestCost>): Option<Decimal> {
    if rows == [] then Some(NOTHING)
    else match Booked(round, rows[..|rows| - 1])
      case None => None
      case Some(total) => CheckedAdd(round, total, AmountOf(rows[|rows| - 1]))
  }

  /** The sum up to every row is an amount without rounding. */
  predicate TotalsFit(rows: seq<RequestCost>) {
    Fits(PricedTotal(rows)) && (rows != [] ==> TotalsFit(rows[..|rows| - 1]))
  }

  function PricedCount(rows: seq<RequestCost>): nat {
    if rows == [] then 0
    else PricedCount(rows[..|rows| - 1]) + if rows[|rows| - 1].amount.Some? then 1 else 0
  }

  lemma RowAdds(round: Rounding, rows: seq<RequestCost>, row: RequestCost)
    ensures PricedTotal(rows + [row]) == PricedTotal(rows) + AmountOf(row)
    ensures PricedCount(rows + [row]) == PricedCount(rows) + if row.amount.Some? then 1 else 0
    ensures Booked(round, rows + [row]) == match Booked(round, rows)
                                           case None => None
                                           case Some(total) => CheckedAdd(round, total, AmountOf(row))
    ensures TotalsFit(rows + [row]) <==> TotalsFit(rows) && Fits(PricedTotal(rows + [row]))
  {
    hide Fits, CheckedAdd;
    assert (rows + [row])[..|rows|] == rows;
  }

  lemma {:induction false} BookedIsSum(round: Rounding, rows: seq<RequestCost>)
    requires TotalsFit(rows)
    ensures Booked(round, rows) == Some(PricedTotal(rows))
  {
    hide Fits, CheckedAdd;
    if rows != [] {
      var front := rows[..|rows| - 1];
      BookedIsSum(round, front);
      AddingIsExact(round, PricedTotal(front), AmountOf(rows[|rows| - 1]));
    }
  }

  // ----- the invariant

  /** A row is either priced, in the ledger's currency and with a source, or it says why not. */
  predicate ProperRow(row: RequestCost, currency: string) {
    match row.amount
    case Some(money) => money.currency == currency && row.source.Some? && row.precision.Some? && row.reason.None?
    case None =>
      row.source.None? && row.precision.None? && row.pricingVersion.None? && row.items == [] && row.reason.Some?
  }

  predicate LedgerInv(round: Rounding, l: Ledger) {
    && Booked(round, l.requests) == Some(l.knownTotal)
    && l.pricedRequests == Min(PricedCount(l.requests), U32_MAX)
    && PricedCount(l.requests) <= |l.requests|
    && l.unpricedRequests == Min(|l.requests| - PricedCount(l.requests), U32_MAX)
    && forall i :: 0 <= i < |l.requests| ==> ProperRow(l.requests[i], l.targetCurrency)
  }

  lemma NewLedgerKeepsInv(round: Rounding, targetCurrency: string)
    ensures LedgerInv(round, NewLedger(targetCurrency))
  {
  }

  lemma PricedRowKeepsInv(round: Rounding, l: Ledger, total: Decimal, row: RequestCost)
    requires LedgerInv(round, l) && ProperRow(row, l.targetCurrency)
    requires row.amount.Some? && CheckedAdd(round, l.knownTotal, row.amount.value.amount) == Some(total)
    ensures LedgerInv(round, Ledger(l.targetCurrency, total, SatInc(l.pricedRequests), l.unpricedRequests,
                                    l.requests + [row]))
  {
    hide Booked, PricedCount, ProperRow, CheckedAdd;
    RowAdds(round, l.requests, row);
  }

  lemma UnpricedRowKeepsInv(round: Rounding, l: Ledger, row: RequestCost)
    requires LedgerInv(round, l) && ProperRow(row, l.targetCurrency) && row.amount.None?
    ensures LedgerInv(round, Ledger(l.targetCurrency, l.knownTotal, l.pricedRequests, SatInc(l.unpricedRequests),
                                    l.requests + [row]))
  {
    hide Booked, PricedCount, ProperRow, CheckedAdd;
    RowAdds(round, l.requests, row);
    AddingIsExact(round, l.knownTotal, NOTHING);
  }

  lemma RecordedKeepsInv(round: Rounding, l: Ledger, e: Entry)
    requires LedgerInv(round, l)
    ensures LedgerInv(round, Recorded(round, l, e)) && Recorded(round, l, e).targetCurrency == l.targetCurrency
  {
    hide LedgerInv, CheckedAdd;
    var after := Recorded(round, l, e);
    var row := after.requests[|l.requests|];
    if row.amount.Some? {
      PricedRowKeepsInv(round, l, after.knownTotal, row);
    } else {
      UnpricedRowKeepsInv(round, l, row);
    }
  }

  lemma RecordedAppends(round: Rounding, l: Ledger, e: Entry)
    ensures |Recorded(round, l, e).requests| == |l.requests| + 1 && l.requests <= Recorded(round, l, e).requests
  {
    hide CheckedAdd;
  }

  /**
   * Over every run: after any sequence of records the known total is what booking the priced
   * rows gives, every entry has its row, and the counters count the rows. Money is conserved:
   * the total is exactly the sum of the priced rows if no sum of rows has to be rounded.
   */
  lemma {:induction false} MoneyIsConserved(round: Rounding, l: Ledger, entries: seq<Entry>)
    requires LedgerInv(round, l)
    ensures var end := RecordAll(round, l, entries);
            && LedgerInv(round, end)
            && end.targetCurrency == l.targetCurrency
            && |end.requests| == |l.requests| + |entries|
            && l.requests <= end.requests
            && (TotalsFit(end.requests) ==> end.knownTotal == PricedTotal(end.requests))
    decreases |entries|
  {
    hide Recorded, TotalsFit, Booked, PricedCount, ProperRow;
    if entries == [] {
      if TotalsFit(l.requests) {
        BookedIsSum(round, l.requests);
      }
    } else {
      RecordedKeepsInv(round, l, entries[0]);
      RecordedAppends(round, l, entries[0]);
      MoneyIsConserved(round, Recorded(round, l, entries[0]), entries[1..]);
    }
  }

  /** After `n` entries the known total is exactly the sum of the priced rows. */
  ghost predicate ConservedAfter(round: Rounding, l: Ledger, entries: seq<Entry>, n: nat) {
    n <= |entries| && Conserved(RecordAll(round, l, entries[..n]))
  }

  predicate Conserved(l: Ledger) {
    l.knownTotal == PricedTotal(l.requests)
  }

  lemma ConservedAfterFirst(round: Rounding, l: Ledger, entries: seq<Entry>, n: nat)
    requires n < |entries|
    ensures ConservedAfter(round, l, entries, n + 1) <==>
            ConservedAfter(round, Recorded(round, l, entries[0]), entries[1..], n)
  {
    hide Recorded, Conserved;
    Slice(entries, 1, n + 1);
  }

  lemma {:induction false} TotalsFitBefore(rows: seq<RequestCost>, n: nat)
    requires n <= |rows| && TotalsFit(rows)
    ensures TotalsFit(rows[..n])
  {
    hide Fits;
    if n < |rows| {
      TotalsFitBefore(rows[..|rows| - 1], n);
      assert rows[..|rows| - 1][..n] == rows[..n];
    } else {
      assert rows[..n] == rows;
    }
  }

  /** Recording from an exact ledger keeps it exact if and only if the new sum is not rounded. */
  lemma RecordedIsExactIff(round: Rounding, l: Ledger, e: Entry)
    requires LedgerInv(round, l) && TotalsFit(l.requests)
    ensures Conserved(Recorded(round, l, e)) <==> TotalsFit(Recorded(round, l, e).requests)
  {
    hide Fits, Booked, TotalsFit, PricedTotal, Recorded, PricedCount, ProperRow;
    var after := Recorded(round, l, e);
    RecordedKeepsInv(round, l, e);
    LastRow(round, l, e);
    RowAdds(round, l.requests, after.requests[|l.requests|]);
    if TotalsFit(after.requests) {
      BookedIsSum(round, after.requests);
    }
    var total: Decimal := after.knownTotal;
  }

  lemma LastRow(round: Rounding, l: Ledger, e: Entry)
    ensures var rows := Recorded(round, l, e).requests;
            |rows| == |l.requests| + 1 && rows == l.requests + [rows[|l.requests|]]
  {
    hide CheckedAdd;
  }

  lemma {:induction false} ExactFromHereIff(round: Rounding, l: Ledger, entries: seq<Entry>)
    requires LedgerInv(round, l) && TotalsFit(l.requests)
    ensures TotalsFit(RecordAll(round, l, entries).requests) <==>
            forall n: nat :: n <= |entries| ==> ConservedAfter(round, l, entries, n)
    decreases |entries|
  {
    hide LedgerInv, Recorded, TotalsFit, ConservedAfter;
    ExactAtFirst(round, l, entries);
    if entries != [] {
      var next, rest := Recorded(round, l, entries[0]), entries[1..];
      RecordedKeepsInv(round, l, entries[0]);
      RecordedIsExactIff(round, l, entries[0]);
      forall n: nat | n < |entries|
        ensures ConservedAfter(round, l, entries, n + 1) <==> ConservedAfter(round, next, rest, n)
      {
        ConservedAfterFirst(round, l, entries, n);
      }
      assert forall n: nat :: 0 < n <= |entries| ==>
               (ConservedAfter(round, l, entries, n) <==> ConservedAfter(round, next, rest, n - 1));
      MoneyIsConserved(round, next, rest);
      var rows := RecordAll(round, next, rest).requests;
      assert rows[..|next.requests|] == next.requests;
      if TotalsFit(next.requests) {
        ExactFromHereIff(round, next, rest);
      } else {
        assert !ConservedAfter(round, next, rest, 0) by {
          ConservedAtStart(round, next, rest);
        }
        if TotalsFit(rows) {
          TotalsFitBefore(rows, |next.requests|);
        }
      }
    }
  }

  lemma ConservedAtStart(round: Rounding, l: Ledger, entries: seq<Entry>)
    ensures ConservedAfter(round, l, entries, 0) <==> Conserved(l)
  {
  }

  lemma ExactAtFirst(round: Rounding, l: Ledger, entries: seq<Entry>)
    requires LedgerInv(round, l) && TotalsFit(l.requests)
    ensures ConservedAfter(round, l, entries, 0)
  {
    hide TotalsFit;
    BookedIsSum(round, l.requests);
    ConservedAtStart(round, l, entries);
  }

  /** Over every run the total is exact after each entry, if and only if no sum of rows has to be rounded. */
  lemma MoneyIsConservedIff(round: Rounding, targetCurrency: string, entries: seq<Entry>)
    ensures TotalsFit(RecordAll(round, NewLedger(targetCurrency), entries).requests) <==>
            forall n: nat :: n <= |entries| ==> ConservedAfter(round, NewLedger(targetCurrency), entries, n)
  {
    hide RecordAll, ConservedAfter, LedgerInv;
    NewLedgerKeepsInv(round, targetCurrency);
    ExactFromHereIff(round, NewLedger(targetCurrency), entries);
  }

  /** The two counters add up to the number of rows exactly while neither has saturated. */
  lemma CountersAddUpIff(round: Rounding, l: Ledger)
    requires LedgerInv(round, l)
    ensures l.pricedRequests + l.unpricedRequests == |l.requests| <==>
            PricedCount(l.requests) <= U32_MAX && |l.requests| - PricedCount(l.requests) <= U32_MAX
  {
    hide Booked, PricedCount;
  }

  // ----- rows

  /** The row names the attempt, in full, and the iteration it was made in. */
  predicate RowNames(row: RequestCost, e: Entry) {
    && row.iteration == e.iteration && row.attempt == e.attempt.attempt
    && row.providerId == e.attempt.providerId && row.requestId == e.attempt.requestId
    && row.model == ModelForPricing(e.attempt) && row.serviceTier == e.attempt.serviceTier
    && row.httpStatus == e.attempt.status && row.usage == e.attempt.usage
  }

  /** What the row of an entry is, given the rows before it. */
  predicate RowOf(round: Rounding, row: RequestCost, e: Entry, before: seq<RequestCost>, currency: string) {
    && RowNames(row, e)
    && (row.amount.Some? <==>
          && e.resolution.Priced? && e.resolution.money.currency == currency
          && Booked(round, before).Some?
          && CheckedAdd(round, Booked(round, before).value, e.resolution.money.amount).Some?)
    && ProperRow(row, currency)
    && (row.amount.Some? ==>
          e.resolution == Priced(row.amount.value, row.source.value, row.precision.value, row.pricingVersion,
                                 row.items))
    && (row.amount.None? ==>
          row.reason == Some(if e.resolution.Unpriced? then e.resolution.reason else NOT_BOOKED))
  }

  /**
   * Row by row, over every run: an entry is priced exactly when it has a price in the run's
   * currency that the total of the rows before it can take, and then its resolution can be read
   * back from the row; otherwise its reason is kept.
   */
  lemma {:induction false} RowsFollowEntries(round: Rounding, l: Ledger, entries: seq<Entry>, k: nat)
    requires LedgerInv(round, l) && k < |entries|
    ensures var rows := RecordAll(round, l, entries).requests;
            && |rows| == |l.requests| + |entries|
            && RowOf(round, rows[|l.requests| + k], entries[k], rows[..|l.requests| + k], l.targetCurrency)
    decreases k
  {
    hide LedgerInv, Recorded, RowOf;
    var next := Recorded(round, l, entries[0]);
    RecordedKeepsInv(round, l, entries[0]);
    RecordedAppends(round, l, entries[0]);
    MoneyIsConserved(round, next, entries[1..]);
    if k == 0 {
      FirstRow(round, l, entries[0]);
      var rows := RecordAll(round, l, entries).requests;
      assert rows == RecordAll(round, next, entries[1..]).requests;
      assert rows[..|l.requests|] == next.requests[..|l.requests|] == l.requests;
      assert rows[|l.requests|] == next.requests[|l.requests|];
    } else {
      RowsFollowEntries(round, next, entries[1..], k - 1);
      assert entries[1..][k - 1] == entries[k];
    }
  }

  lemma FirstRow(round: Rounding, l: Ledger, e: Entry)
    requires LedgerInv(round, l)
    ensures RowOf(round, Recorded(round, l, e).requests[|l.requests|], e, l.requests, l.targetCurrency)
  {
    hide CheckedAdd, Booked, PricedCount;
  }

  // ----- the budget

  predicate LimitHit(l: Ledger, maxCost: Option<Money>) {
    maxCost.Some? && l.knownTotal >= maxCost.value.amount
  }

  /** Recording lifts a reached limit exactly when it books a negative amount that brings the total below. */
  lemma LimitRevertsIff(round: Rounding, l: Ledger, maxCost: Option<Money>, e: Entry)
    requires LimitHit(l, maxCost)
    ensures !LimitHit(Recorded(round, l, e), maxCost) <==>
            && e.resolution.Priced? && e.resolution.money.currency == l.targetCurrency
            && var total := CheckedAdd(round, l.knownTotal, e.resolution.money.amount);
               total.Some? && total.value < maxCost.value.amount
    ensures !LimitHit(Recorded(round, l, e), maxCost) ==> e.resolution.money.amount < 0
  {
    hide CheckedAdd;
    if NewTotal(round, l, e).Some? && e.resolution.money.amount >= 0 {
      AddingNeverShrinks(round, l.knownTotal, e.resolution.money.amount);
    }
  }

  predicate NonNegative(e: Entry) {
    e.resolution.Priced? ==> e.resolution.money.amount >= 0
  }

  /** With non-negative prices the total never falls, so a limit once reached stays reached. */
  lemma {:induction false} LimitNeverReverts(round: Rounding, l: Ledger, maxCost: Option<Money>, entries: seq<Entry>)
    requires forall i :: 0 <= i < |entries| ==> NonNegative(entries[i])
    ensures RecordAll(round, l, entries).knownTotal >= l.knownTotal
    ensures LimitHit(l, maxCost) ==> LimitHit(RecordAll(round, l, entries), maxCost)
    decreases |entries|
  {
    hide CheckedAdd;
    if entries != [] {
      assert NonNegative(entries[0]);
      if NewTotal(round, l, entries[0]).Some? {
        AddingNeverShrinks(round, l.knownTotal, entries[0].resolution.money.amount);
      }
      LimitNeverReverts(round, Recorded(round, l, entries[0]), maxCost, entries[1..]);
    }
  }

  // ----- the report

  datatype CostReportStatus = Complete | Partial | Unavailable

  datatype BudgetStatus = NotConfigured | Degraded | LimitReached | Enforced

  datatype RunCostReport = RunCostReport(
    status: CostReportStatus,
    knownTotal: Option<Money>,
    pricedRequests: u32,
    unpricedRequests: u32,
    budgetStatus: BudgetStatus,
    requests: seq<RequestCost>)

  function BuildRunCostReport(l: Ledger, maxCost: Option<Money>): RunCostReport {
    RunCostReport(
      if l.requests == [] || l.pricedRequests == 0 then Unavailable
      else if l.unpricedRequests == 0 then Complete
      else Partial,
      if l.pricedRequests > 0 then Some(Money(l.knownTotal, l.targetCurrency)) else None,
      l.pricedRequests,
      l.unpricedRequests,
      if maxCost.None? then NotConfigured
      else if l.unpricedRequests > 0 then Degraded
      else if l.knownTotal >= maxCost.value.amount then LimitReached
      else Enforced,
      l.requests)
  }

  predicate SomePriced(rows: seq<RequestCost>) {
    exists i :: 0 <= i < |rows| && rows[i].amount.Some?
  }

  predicate AllPriced(rows: seq<RequestCost>) {
    forall i :: 0 <= i < |rows| ==> rows[i].amount.Some?
  }

  lemma {:induction false} CountMeaning(rows: seq<RequestCost>)
    ensures PricedCount(rows) <= |rows|
    ensures PricedCount(rows) > 0 <==> SomePriced(rows)
    ensures PricedCount(rows) == |rows| <==> AllPriced(rows)
  {
    if rows != [] {
      var front := rows[..|rows| - 1];
      CountMeaning(front);
      assert forall i :: 0 <= i < |front| ==> rows[i] == front[i];
      assert SomePriced(front) ==> SomePriced(rows);
    }
  }

  /**
   * What a report says, in terms of its rows alone. In particular the limit is reported exactly
   * when it is hit and every row is priced: one unpriced row reports `Degraded` instead.
   */
  lemma ReportMeaning(round: Rounding, l: Ledger, maxCost: Option<Money>)
    requires LedgerInv(round, l)
    ensures var report := BuildRunCostReport(l, maxCost);
            var rows := l.requests;
            && report.requests == rows
            && (report.status.Unavailable? <==> !SomePriced(rows))
            && (report.status.Complete? <==> rows != [] && AllPriced(rows))
            && report.knownTotal ==
               (if SomePriced(rows) then Some(Money(Booked(round, rows).value, l.targetCurrency)) else None)
            && (TotalsFit(rows) ==> Booked(round, rows).value == PricedTotal(rows))
            && (report.budgetStatus.NotConfigured? <==> maxCost.None?)
            && (report.budgetStatus.Degraded? <==> maxCost.Some? && !AllPriced(rows))
            && (report.budgetStatus.LimitReached? <==> LimitHit(l, maxCost) && AllPriced(rows))
  {
    CountMeaning(l.requests);
    hide PricedTotal, Booked, TotalsFit, PricedCount, SomePriced, AllPriced, ProperRow;
    if TotalsFit(l.requests) {
      BookedIsSum(round, l.requests);
    }
  }

  function RequestsSince(l: Ledger, start: nat): seq<RequestCost> {
    if start <= |l.requests| then l.requests[start..] else []
  }

  /** A request count taken earlier marks the rows of exactly the entries recorded since. */
  lemma SinceACheckpoint(round: Rounding, l: Ledger, entries: seq<Entry>, k: nat)
    requires LedgerInv(round, l)
    ensures var since := RequestsSince(RecordAll(round, l, entries), |l.requests|);
            && |since| == |entries|
            && (k < |entries| ==> RowNames(since[k], entries[k]))
            && RecordAll(round, l, entries).requests == l.requests + since
  {
    hide LedgerInv, RecordAll, RowOf, RowNames;
    MoneyIsConserved(round, l, entries);
    var rows := RecordAll(round, l, entries).requests;
    assert rows == l.requests + rows[|l.requests|..];
    if k < |entries| {
      RowsFollowEntries(round, l, entries, k);
      RowIsOfItsEntry(round, rows[|l.requests| + k], entries[k], rows[..|l.requests| + k], l.targetCurrency);
    }
  }

  lemma RowIsOfItsEntry(round: Rounding, row: RequestCost, e: Entry, before: seq<RequestCost>, currency: string)
    requires RowOf(round, row, e, before, currency)
    ensures RowNames(row, e)
  {
  }

  // ----- the tracker

  datatype TrackerError = BadTargetCurrency | LimitInOtherCurrency

  class RunCostTracker {
    const targetCurrency: string
    const maxCost: Option<Money>
    const round: Rounding
    var knownTotal: Decimal
    var pricedRequests: u32
    var unpricedRequests: u32
    var requests: seq<RequestCost>

    function State(): Ledger
      reads this
    {
      Ledger(targetCurrency, knownTotal, pricedRequests, unpricedRequests, requests)
    }

    predicate Valid()
      reads this
    {
      && LedgerInv(round, State())
      && ValidCurrency(targetCurrency)
      && (maxCost.Some? ==> maxCost.value.currency == targetCurrency)
    }

    constructor (targetCurrency: string, maxCost: Option<Money>, round: Rounding)
      requires ValidCurrency(targetCurrency) && (maxCost.Some? ==> maxCost.value.currency == targetCurrency)
      ensures Valid() && State() == NewLedger(targetCurrency)
      ensures this.targetCurrency == targetCurrency && this.maxCost == maxCost && this.round == round
    {
      this.targetCurrency := targetCurrency;
      this.maxCost := maxCost;
      this.round := round;
      knownTotal := NOTHING;
      pricedRequests := 0;
      unpricedRequests := 0;
      requests := [];
      NewLedgerKeepsInv(round, targetCurrency);
    }

    /** A tracker exists exactly for a valid currency with a limit, if any, in that currency. */
    static method Create(targetCurrency: string, maxCost: Option<Money>, round: Rounding)
      returns (r: Result<RunCostTracker, TrackerError>)
      ensures r.Err? && r.error.BadTargetCurrency? <==> !ValidCurrency(targetCurrency)
      ensures r.Err? && r.error.LimitInOtherCurrency? <==>
              ValidCurrency(targetCurrency) && maxCost.Some? && maxCost.value.currency != targetCurrency
      ensures r.Ok? ==> fresh(r.value) && r.value.Valid() && r.value.maxCost == maxCost
                        && r.value.round == round && r.value.State() == NewLedger(targetCurrency)
    {
      if !ValidCurrency(targetCurrency) {
        return Err(BadTargetCurrency);
      }
      if maxCost.Some? && maxCost.value.currency != targetCurrency {
        return Err(LimitInOtherCurrency);
      }
      var tracker := new RunCostTracker(targetCurrency, maxCost, round);
      return Ok(tracker);
    }

    method Record(iteration: u32, attempt: Attempt, resolution: CostResolution)
      requires Valid()
      modifies this
      ensures Valid() && State() == Recorded(round, old(State()), Entry(iteration, attempt, resolution))
    {
      hide LedgerInv, CheckedAdd, ValidCurrency, PricedRow, UnpricedRow;
      ghost var e := Entry(iteration, attempt, resolution);
      ghost var before := State();
      RecordedKeepsInv(round, before, e);
      match resolution
      case Priced(money, _, _, _, _) =>
        if money.currency == targetCurrency {
          var total := CheckedAdd(round, knownTotal, money.amount);
          if total.Some? {
            knownTotal := total.value;
            pricedRequests := SatInc(pricedRequests);
            requests := requests + [PricedRow(iteration, attempt, resolution)];
            return;
          }
        }
        RecordUnpriced(iteration, attempt, NOT_BOOKED);
      case Unpriced(reason) =>
        RecordUnpriced(iteration, attempt, reason);
    }

    method RecordUnpriced(iteration: u32, attempt: Attempt, reason: string)
      modifies this
      ensures State() == RecordedUnpriced(old(State()), iteration, attempt, reason)
    {
      unpricedRequests := SatInc(unpricedRequests);
      requests := requests + [UnpricedRow(iteration, attempt, reason)];
    }

    method LimitIsHit() returns (hit: bool)
      requires Valid()
      ensures hit <==> maxCost.Some? && Booked(round, requests).value >= maxCost.value.amount
      ensures TotalsFit(requests) ==> (hit <==> maxCost.Some? && PricedTotal(requests) >= maxCost.value.amount)
    {
      if TotalsFit(requests) {
        BookedIsSum(round, requests);
      }
      hit := maxCost.Some? && knownTotal >= maxCost.value.amount;
    }

    /** A report of a copy of the ledger; the tracker goes on. */
    method Report() returns (report: RunCostReport)
      requires Valid()
      ensures report == BuildRunCostReport(State(), maxCost)
    {
      report := BuildRunCostReport(Ledger(targetCurrency, knownTotal, pricedRequests, unpricedRequests, requests),
                                   maxCost);
    }

    /** The last report, which takes the ledger out of the tracker; it says what `Report` would have. */
    method IntoReport() returns (report: RunCostReport)
      requires Valid()
      modifies this
      ensures report == BuildRunCostReport(old(State()), maxCost)
    {
      var taken := requests;
      requests := [];
      report := BuildRunCostReport(Ledger(targetCurrency, knownTotal, pricedRequests, unpricedRequests, taken),
                                   maxCost);
    }
  }
}
