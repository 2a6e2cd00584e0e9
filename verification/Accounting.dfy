/** The accounting record of one provider HTTP attempt. */
module Accounting {
  import opened Common
  import opened Money
  import opened Usage

  datatype ReportedCost = ReportedCost(
    amount: Decimal,
    unit: Option<string>,
    source: string,
    details: map<string, Decimal>)

  datatype Attempt = Attempt(
    attempt: nat,
    providerId: string,
    requestedModel: string,
    resolvedModel: Option<string>,
    serviceTier: Option<string>,
    requestId: Option<string>,
    status: Option<nat>,
    occurredAtMs: u128,
    usage: ExtractedUsage,
    reportedCost: Option<ReportedCost>,
    error: Option<string>)

  /** The model the provider says it used, or else the one that was asked for. */
  function ModelForPricing(a: Attempt): string {
    match a.resolvedModel case Some(model) => model case None => a.requestedModel
  }
}
