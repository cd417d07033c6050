/** Gate passes and their items (core/models/gatepass.model.ts). The
    typed model has no validity window; the check at the gate reads
    `valid_from`/`valid_to` from the untyped row it looks up. Here both
    dates are fields of the pass and are always present. */
module GatePassModel {
  import opened Common
  import opened Time

  datatype PassType = InwardPass | OutwardPass | Returnable | NonReturnable

  datatype PassStatus = Pending | Approved | Rejected | Completed

  /** The stored spelling of a pass status. */
  function PassStatusName(s: PassStatus): string {
    match s
    case Pending => "pending"
    case Approved => "approved"
    case Rejected => "rejected"
    case Completed => "completed"
  }

  datatype GatePass = GatePass(
    id: Option<string>,
    passNumber: string,
    passType: PassType,
    partyName: string,
    purpose: string,
    validFrom: DateTime,
    validTo: DateTime,
    status: PassStatus,
    notes: Option<string>,
    createdBy: Option<string>)

  datatype GatePassItem = GatePassItem(
    gatePassId: Option<string>,
    itemId: Option<string>,
    itemName: string,
    description: Option<string>,
    quantity: int,
    unit: string,
    returnedQuantity: Option<int>)
}
