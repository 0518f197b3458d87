/** The checks of a report. */
module Checks {
  datatype CheckName =
    | Reachability | X402Challenge | PaymentBudget | PaidDelivery | TaskOutcome
    | ServiceDiscovery | RequestContract

  datatype CheckStatus = Pass | Warn | Fail | Skip

  datatype Check = Check(name: CheckName, status: CheckStatus, weight: nat, points: nat)
}
