/** Users and their roles (core/models/user.model.ts). */
module UserModel {
  import opened Common

  /** `UserRole`: the four roles of the application. */
  datatype Role = Admin | Manager | Staff | Viewer

  /** The stored, lower-case spelling of a role. */
  function RoleName(r: Role): string {
    match r
    case Admin => "admin"
    case Manager => "manager"
    case Staff => "staff"
    case Viewer => "viewer"
  }

  /** The signed-in user, as the authentication service reports it. */
  datatype User = User(id: string, fullName: string, role: Role, department: Option<string>)
}
