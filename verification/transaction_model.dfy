/** Stock transactions (core/models/transaction.model.ts). */
module TransactionModel {
  import opened Common
  import opened Time

  datatype TxType = Inward | Outward | Adjustment | Transfer

  /** The stored spelling of a transaction type. */
  function TxTypeName(t: TxType): string {
    match t
    case Inward => "inward"
    case Outward => "outward"
    case Adjustment => "adjustment"
    case Transfer => "transfer"
  }

  datatype ReferenceType = GatePassRef | IndentRef | ManualRef

  /** One ledger row. `itemId` is absent for manual entries that are not
      linked to an inventory item; absent text columns are empty strings. */
  datatype Transaction = Transaction(
    number: string,
    txType: TxType,
    itemId: Option<string>,
    quantity: int,
    unitPrice: Option<int>,
    totalAmount: Option<int>,
    referenceType: Option<ReferenceType>,
    fromLocation: Option<string>,
    toLocation: string,
    partyName: string,
    invoiceNumber: string,
    notes: string,
    createdBy: Option<string>,
    createdAt: Option<DateTime>)
}
