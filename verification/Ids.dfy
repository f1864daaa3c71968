/** Primary keys. */
module Ids {
  type OperatorId = nat
  type OperationId = nat
  type FacilityId = nat
  type EventId = nat
}
