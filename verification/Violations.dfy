/** Tagged records for the hard violations a check can raise. */
module Violations {
  import opened Model

  datatype Violation =
    | DoubleAccess(activity: nat, week: int)
    | Workload(activity: nat)
    | PlannedStart(activity: nat, week: int)
    | PrecedenceBreach(activity: nat, predecessor: nat)
    | WrongSpan(activity: nat, week: int)
    | StrayBooking(activity: nat, week: int)
    | BadSequence(activity: nat)
    | WrongScenario(row: nat)
    | RepeatedContract(row: nat)
    | UnknownContract(row: nat)
    | WrongResult(contract: nat)
    | OverCapacity(cell: Cell)
    | IllegalMix(cell: Cell, slot: int)
    | OverAllowance(contract: nat, week: int)
    | NightOutOfRange(contract: nat, week: int, night: int)
    | OverWorkfronts(contract: nat, week: int, night: int)
    | ClosureClash(week: int, a: nat, b: nat)
    | EcloForbidden(activity: nat, week: int)
    | EcloSpread(line: string)
    | PastPlannedDate(contract: nat)
}
