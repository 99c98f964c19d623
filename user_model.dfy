/** The User schema (`models/User.js`): the account record, its role enum,
    its defaults, and what `User.create` validates before it stores one. */
module UserModel {
  import opened Wrappers
  import opened Js
  import opened Response
  import Validators

  datatype Role = UserRole | MechanicRole | AdminRole

  function RoleName(r: Role): string {
    match r
    case UserRole => "user"
    case MechanicRole => "mechanic"
    case AdminRole => "admin"
  }

  /** The role enum read from its stored text. */
  function ParseRole(s: string): (r: Option<Role>)
    ensures forall k: Role :: r == Some(k) <==> RoleName(k) == s
  {
    if s == "user" then Some(UserRole)
    else if s == "mechanic" then Some(MechanicRole)
    else if s == "admin" then Some(AdminRole)
    else None
  }

  datatype Address = Address(street: Option<string>, city: Option<string>, state: Option<string>,
                             zipCode: Option<string>, country: Option<string>)

  /** A stored user. `password` holds the bcrypt hash of the password given at
      registration; the schema never selects it into a query result unless asked. */
  datatype User = User(
    firstName: string,
    lastName: string,
    email: string,
    phone: string,
    password: string,
    role: Role,
    profilePicture: Option<string>,
    address: Option<Address>,
    isActive: bool,
    isEmailVerified: bool)

  const MinPasswordLength := 6

  /** What stays true of every stored user: it has a password hash, and its
      e-mail, which no handler changes after registration, is lower-cased and
      matches the e-mail pattern. The other required texts are validated only
      by `User.create`: a profile update runs no validator and may empty them. */
  predicate StoredUser(u: User) {
    && u.password != ""
    && u.email == Lower(u.email) && Validators.IsValidEmail(u.email)
  }

  /** The first schema validator that rejects a new user, in the order the schema
      declares the paths, or None. The required paths are checked by every caller
      before `User.create`, so they are tested here only for completeness. */
  function UserFault(firstName: string, lastName: string, email: string, phone: string, password: string): (r: Option<Fault>)
    ensures r.None? <==> && firstName != "" && lastName != "" && phone != "" && password != ""
                         && Validators.IsValidEmail(Lower(email)) && |password| >= MinPasswordLength
  {
    if firstName == "" then Some(Invalid("User", "firstName", "Please provide first name"))
    else if lastName == "" then Some(Invalid("User", "lastName", "Please provide last name"))
    else if email == "" then Some(Invalid("User", "email", "Please provide email"))
    else if !Validators.IsValidEmail(Lower(email)) then Some(Invalid("User", "email", "Please provide valid email"))
    else if phone == "" then Some(Invalid("User", "phone", "Please provide phone number"))
    else if password == "" then Some(Invalid("User", "password", "Please provide password"))
    else if |password| < MinPasswordLength then
      Some(Invalid("User", "password", "Path `password` is shorter than the minimum allowed length (6)."))
    else None
  }

  /** The first validator that rejects a loaded user when `save()` runs them
      again on every loaded path, or None. The password is not loaded (it is
      never selected), so its validators do not run. */
  function SaveFault(u: User): (r: Option<Fault>)
    ensures r.None? <==> u.firstName != "" && u.lastName != "" && u.email != "" && Validators.IsValidEmail(u.email) && u.phone != ""
    ensures r.Some? ==> r.value.Invalid? && r.value.model == "User"
  {
    if u.firstName == "" then Some(Invalid("User", "firstName", "Please provide first name"))
    else if u.lastName == "" then Some(Invalid("User", "lastName", "Please provide last name"))
    else if u.email == "" then Some(Invalid("User", "email", "Please provide email"))
    else if !Validators.IsValidEmail(u.email) then Some(Invalid("User", "email", "Please provide valid email"))
    else if u.phone == "" then Some(Invalid("User", "phone", "Please provide phone number"))
    else None
  }

  /** The document `User.create` builds: the e-mail goes through the lower-case
      setter, the password is replaced by its hash, and the defaults are filled in.
      Validation runs on the plain password, before the hashing hook. */
  function NewUser(firstName: string, lastName: string, email: string, phone: string,
                   password: string, passwordHash: string, role: Role): (r: Outcome<User>)
    requires passwordHash != ""
    ensures r.Done? <==> UserFault(firstName, lastName, email, phone, password).None?
    ensures r.Threw? ==> Some(r.fault) == UserFault(firstName, lastName, email, phone, password)
    ensures r.Done? ==> && StoredUser(r.value)
                        && r.value.email == Lower(email) && r.value.password == passwordHash
                        && r.value.firstName == firstName && r.value.lastName == lastName
                        && r.value.phone == phone && r.value.role == role
                        && r.value.isActive && !r.value.isEmailVerified
                        && r.value.profilePicture.None? && r.value.address.None?
  {
    match UserFault(firstName, lastName, email, phone, password)
    case Some(f) => Threw(f)
    case None =>
      LowerIdempotent(email);
      Done(User(firstName, lastName, Lower(email), phone, passwordHash, role, None, None, true, false))
  }
}
