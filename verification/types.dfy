/**
 * The records shared by the authentication flow and the session: the optional
 * value used wherever the application has "nothing yet" (`null`, `undefined`,
 * a missing storage entry), and the signed-in `User` with its role.
 */
module Types {

  /** A value that may be absent. */
  datatype Option<+T> = None | Some(value: T)

  /** The three roles an account can hold. */
  datatype Role = Admin | Manager | Tenant

  /** The signed-in account: an opaque id, display name, email, role and an optional avatar address. */
  datatype User = User(id: string, name: string, email: string, role: Role, avatar: Option<string>)

  /** Admins and managers are the staff roles: they see the administrative shell and may visit the tenant portal. */
  predicate IsStaff(r: Role)
  {
    r == Admin || r == Manager
  }
}
