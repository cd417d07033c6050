/** Purchase indents and their line items (core/models/indent.model.ts). */
module IndentModel {
  import opened Common
  import opened Time

  datatype IndentStatus = Draft | Pending | Approved | Rejected | Completed

  /** The stored spelling of an indent status. */
  function StatusName(s: IndentStatus): string {
    match s
    case Draft => "draft"
    case Pending => "pending"
    case Approved => "approved"
    case Rejected => "rejected"
    case Completed => "completed"
  }

  /** An indent row. `priority` is kept as the stored text (`"low"`, ...). */
  datatype Indent = Indent(
    id: string,
    indentNumber: string,
    title: Option<string>,
    department: string,
    priority: string,
    requiredDate: string,
    status: IndentStatus,
    totalAmount: int,
    notes: Option<string>,
    requestedBy: Option<string>,
    approvedBy: Option<string>,
    approvedAt: Option<DateTime>,
    rejectionReason: Option<string>,
    createdAt: DateTime,
    updatedAt: Option<DateTime>)

  /** A line item of an indent. */
  datatype IndentItem = IndentItem(
    indentId: Option<string>,
    itemId: Option<string>,
    itemName: string,
    description: Option<string>,
    quantity: int,
    unit: string,
    estimatedPrice: Option<int>,
    totalPrice: Option<int>)
}
