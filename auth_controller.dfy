/** The account handlers (`controllers/authController.js`): registering a user
    or a mechanic, logging in, reading the caller's own account and updating
    its profile. The token signer (`generateToken`) is the parameter `sign`;
    the bcrypt hash of the new password is the parameter `passwordHash`, and
    bcrypt's comparison of a password with a stored hash is `matches`. */
module AuthController {
  import opened Wrappers
  import opened Js
  import opened Docs
  import opened Response
  import opened UserModel
  import opened MechanicModel
  import opened Database

  /** The account fields the registration and login answers show. */
  datatype Account = Account(id: Id, firstName: string, lastName: string, email: string, phone: string, role: Role)

  /** The mechanic part of `getCurrentUser`'s answer. */
  datatype MechanicInfo = MechanicInfo(licenseNumber: string, skills: seq<Skill>, yearsOfExperience: int,
                                       shopName: Option<string>, isVerified: bool, totalRating: int,
                                       totalReviews: int, totalEarnings: int)

  datatype AuthData =
    | Registered(account: Account, token: string)
    | LoggedIn(account: Account, profilePicture: Option<string>, token: string)
    | Current(account: Account, profilePicture: Option<string>, address: Option<Address>, isEmailVerified: bool,
              mechanic: Option<MechanicInfo>)
    | ProfileUpdated(id: Id, firstName: string, lastName: string, email: string, phone: string,
                     address: Option<Address>, profilePicture: Option<string>)

  /** The `skills` field of a mechanic registration: a list, or a single value. */
  datatype SkillsInput = SkillList(names: seq<string>) | OneSkill(name: string)

  const MissingFields := "Please provide all required fields"
  const PasswordMismatch := "Passwords do not match"
  const AlreadyExists := "User with this email or phone already exists"
  const BadCredentials := "Invalid credentials"

  function AccountOf(u: Doc<User>): Account {
    Account(u.id, u.fields.firstName, u.fields.lastName, u.fields.email, u.fields.phone, u.fields.role)
  }

  // ---------------------------------------------------------------------------
  // Registration

  /** `User.findOne({ $or: [{ email }, { phone }] })`: the e-mail goes through
      the schema's lower-case setter before it is compared. */
  function SameEmailOrPhone(email: string, phone: string): Doc<User> -> bool {
    (u: Doc<User>) => u.fields.email == Lower(email) || u.fields.phone == phone
  }

  /** No stored account has this e-mail (lower-cased) or this phone. */
  predicate Unclaimed(users: seq<Doc<User>>, email: string, phone: string) {
    forall k :: 0 <= k < |users| ==> users[k].fields.email != Lower(email) && users[k].fields.phone != phone
  }

  /** The refusals the two registrations share, in order, or None: a missing
      field, a confirmation that differs, an e-mail or phone already taken. */
  function RegistrationRefusal(users: seq<Doc<User>>, fieldsGiven: bool, email: Option<string>, phone: Option<string>,
                               password: Option<string>, passwordConfirm: Option<string>): (r: Option<Reply<AuthData>>)
    ensures r.None? <==> && fieldsGiven && HasText(email) && HasText(phone) && HasText(password)
                         && passwordConfirm == password && Unclaimed(users, email.value, phone.value)
    ensures r.Some? ==> !r.value.body.Succeeded()
    ensures r.Some? && r.value.status == 409 <==>
      && fieldsGiven && HasText(email) && HasText(phone) && HasText(password) && passwordConfirm == password
      && FindFirst(users, SameEmailOrPhone(email.value, phone.value)).Some?
  {
    if !fieldsGiven || !HasText(email) || !HasText(phone) || !HasText(password) then Some(ErrorResponse(400, MissingFields))
    else if password != passwordConfirm then Some(ErrorResponse(400, PasswordMismatch))
    else if FindFirst(users, SameEmailOrPhone(email.value, phone.value)).Some? then Some(ErrorResponse(409, AlreadyExists))
    else None
  }

  /** `User.create` once its validators have passed: a user that clashes with
      no stored e-mail and phone is stored, and the store stays valid. */
  method AddUser(db: Db, u: Doc<User>)
    requires db.Valid() && StoredUser(u.fields) && Fresh(db.users, u.id)
    requires Unclaimed(db.users, u.fields.email, u.fields.phone) && u.fields.email == Lower(u.fields.email)
    modifies db`users
    ensures db.Valid() && db.users == old(db.users) + [u]
  {
    var t := db.users + [u];
    AppendKeepsUnique(db.users, u, IdOf);
    AppendKeepsUnique(db.users, u, Email);
    AppendKeepsUnique(db.users, u, Phone);
    forall k | 0 <= k < |t| ensures StoredUser(t[k].fields) {
      if k < |db.users| { assert t[k] == db.users[k]; }
    }
    db.users := t;
  }

  /** `User.create` with the handler's fields, once the handler's own checks
      have passed: the schema's fault, or the stored account. */
  method CreateAccount(db: Db, firstName: string, lastName: string, email: string, phone: string, password: string,
                       passwordHash: string, role: Role, newId: Id, now: int) returns (o: Outcome<User>)
    requires db.Valid() && Fresh(db.users, newId) && passwordHash != "" && Unclaimed(db.users, email, phone)
    modifies db`users
    ensures db.Valid() && o == NewUser(firstName, lastName, email, phone, password, passwordHash, role)
    ensures o.Threw? ==> db.users == old(db.users)
    ensures o.Done? ==> db.users == old(db.users) + [Doc(newId, now, o.value)]
  {
    o := NewUser(firstName, lastName, email, phone, password, passwordHash, role);
    if o.Done? {
      LowerIdempotent(email);
      AddUser(db, Doc(newId, now, o.value));
    }
  }

  /** `registerUser`: a new account of role user. Validation failures of
      `User.create` (an e-mail that does not match the pattern, a password under
      six characters) are a 500. */
  method RegisterUser(db: Db, firstName: Option<string>, lastName: Option<string>, email: Option<string>,
                      phone: Option<string>, password: Option<string>, passwordConfirm: Option<string>,
                      passwordHash: string, sign: (Id, Role) -> string, newId: Id, now: int) returns (r: Reply<AuthData>)
    requires db.Valid() && Fresh(db.users, newId) && passwordHash != ""
    modifies db`users
    ensures db.Valid()
    ensures var refusal := RegistrationRefusal(old(db.users), HasText(firstName) && HasText(lastName), email, phone, password, passwordConfirm);
      refusal.Some? ==> r == refusal.value && db.users == old(db.users)
    ensures RegistrationRefusal(old(db.users), HasText(firstName) && HasText(lastName), email, phone, password, passwordConfirm).None? ==>
      var o := NewUser(firstName.value, lastName.value, email.value, phone.value, password.value, passwordHash, UserRole);
      && (o.Threw? ==> r == ServerError("Registration failed: ", o.fault) && db.users == old(db.users))
      && (o.Done? ==> && db.users == old(db.users) + [Doc(newId, now, o.value)]
                      && r == SuccessResponse(201, "User registered successfully",
                                              Some(Registered(AccountOf(Doc(newId, now, o.value)), sign(newId, UserRole)))))
  {
    var refusal := RegistrationRefusal(db.users, HasText(firstName) && HasText(lastName), email, phone, password, passwordConfirm);
    if refusal.Some? {
      return refusal.value;
    }
    var o := CreateAccount(db, firstName.value, lastName.value, email.value, phone.value, password.value, passwordHash,
                           UserRole, newId, now);
    if o.Threw? {
      return ServerError("Registration failed: ", o.fault);
    }
    var u := Doc(newId, now, o.value);
    r := SuccessResponse(201, "User registered successfully", Some(Registered(AccountOf(u), sign(newId, UserRole))));
  }

  /** `!skills` for the request field. */
  predicate SkillsGiven(skills: Option<SkillsInput>) {
    skills.Some? && (skills.value.OneSkill? ==> skills.value.name != "")
  }

  /** The mechanic's own required fields, beside those the registrations share. */
  predicate MechanicFieldsGiven(firstName: Option<string>, lastName: Option<string>, licenseNumber: Option<string>,
                                licenseExpiry: Option<int>, skills: Option<SkillsInput>) {
    HasText(firstName) && HasText(lastName) && HasText(licenseNumber) && NonZero(licenseExpiry) && SkillsGiven(skills)
  }

  /** `Array.isArray(skills) ? skills : [skills]`. */
  function SkillList(skills: SkillsInput): seq<string> {
    match skills
    case SkillList(names) => names
    case OneSkill(name) => [name]
  }

  function LicenseIs(licenseNumber: string): Doc<Mechanic> -> bool {
    (m: Doc<Mechanic>) => m.fields.licenseNumber == licenseNumber
  }

  /** `registerMechanic`: a new account of role mechanic and its unverified
      profile. The two documents are created one after the other: when the
      profile is rejected (by its validators, or by the unique index on the
      licence number) the answer is a 500 and the account stays created. */
  method RegisterMechanic(db: Db, firstName: Option<string>, lastName: Option<string>, email: Option<string>,
                          phone: Option<string>, password: Option<string>, passwordConfirm: Option<string>,
                          licenseNumber: Option<string>, licenseExpiry: Option<int>, skills: Option<SkillsInput>,
                          yearsOfExperience: Option<int>, shopName: Option<string>, shopAddress: Option<string>,
                          passwordHash: string, sign: (Id, Role) -> string, newId: Id, profileId: Id, now: int)
    returns (r: Reply<AuthData>)
    requires db.Valid() && Fresh(db.users, newId) && Fresh(db.mechanics, profileId) && passwordHash != ""
    requires forall k :: 0 <= k < |db.mechanics| ==> db.mechanics[k].fields.userId != newId
    modifies db`users, db`mechanics
    ensures db.Valid()
    ensures RegistrationRefusal(old(db.users), MechanicFieldsGiven(firstName, lastName, licenseNumber, licenseExpiry, skills),
                                email, phone, password, passwordConfirm).Some? ==>
      && r == RegistrationRefusal(old(db.users), MechanicFieldsGiven(firstName, lastName, licenseNumber, licenseExpiry, skills),
                                  email, phone, password, passwordConfirm).value
      && db.users == old(db.users) && db.mechanics == old(db.mechanics)
    ensures RegistrationRefusal(old(db.users), MechanicFieldsGiven(firstName, lastName, licenseNumber, licenseExpiry, skills),
                                email, phone, password, passwordConfirm).None? ==>
      match NewUser(firstName.value, lastName.value, email.value, phone.value, password.value, passwordHash, MechanicRole)
      case Threw(f) =>
        r == ServerError("Registration failed: ", f) && db.users == old(db.users) && db.mechanics == old(db.mechanics)
      case Done(u) =>
        && db.users == old(db.users) + [Doc(newId, now, u)]
        && match NewMechanic(newId, licenseNumber.value, licenseExpiry.value, SkillList(skills.value), yearsOfExperience,
                             shopName, shopAddress)
           case Threw(f) => r == ServerError("Registration failed: ", f) && db.mechanics == old(db.mechanics)
           case Done(m) =>
             if FindFirst(old(db.mechanics), LicenseIs(licenseNumber.value)).Some? then
               r == ServerError("Registration failed: ", DuplicateKey("licenseNumber")) && db.mechanics == old(db.mechanics)
             else
               && db.mechanics == old(db.mechanics) + [Doc(profileId, now, m)]
               && r == SuccessResponse(201, "Mechanic registered successfully. Awaiting admin verification.",
                                       Some(Registered(AccountOf(Doc(newId, now, u)), sign(newId, MechanicRole))))
  {
    var refusal := RegistrationRefusal(db.users, MechanicFieldsGiven(firstName, lastName, licenseNumber, licenseExpiry, skills),
                                       email, phone, password, passwordConfirm);
    if refusal.Some? {
      return refusal.value;
    }
    var o := CreateAccount(db, firstName.value, lastName.value, email.value, phone.value, password.value, passwordHash,
                           MechanicRole, newId, now);
    if o.Threw? {
      return ServerError("Registration failed: ", o.fault);
    }
    var u := Doc(newId, now, o.value);
    var fault := CreateProfile(db, newId, licenseNumber.value, licenseExpiry.value, SkillList(skills.value),
                               yearsOfExperience, shopName, shopAddress, profileId, now);
    if fault.Some? {
      return ServerError("Registration failed: ", fault.value);
    }
    r := SuccessResponse(201, "Mechanic registered successfully. Awaiting admin verification.",
                         Some(Registered(AccountOf(u), sign(newId, MechanicRole))));
  }

  /** `Mechanic.create` for the new account: the schema's validators, then
      the unique licence number; the fault it throws, if any. */
  method CreateProfile(db: Db, userId: Id, licenseNumber: string, licenseExpiry: int, skills: seq<string>,
                       yearsOfExperience: Option<int>, shopName: Option<string>, shopAddress: Option<string>,
                       profileId: Id, now: int) returns (fault: Option<Fault>)
    requires db.Valid() && Fresh(db.mechanics, profileId)
    requires forall k :: 0 <= k < |db.mechanics| ==> db.mechanics[k].fields.userId != userId
    modifies db`mechanics
    ensures db.Valid()
    ensures match NewMechanic(userId, licenseNumber, licenseExpiry, skills, yearsOfExperience, shopName, shopAddress)
      case Threw(f) => fault == Some(f) && db.mechanics == old(db.mechanics)
      case Done(m) =>
        if FindFirst(old(db.mechanics), LicenseIs(licenseNumber)).Some? then
          fault == Some(DuplicateKey("licenseNumber")) && db.mechanics == old(db.mechanics)
        else
          fault.None? && db.mechanics == old(db.mechanics) + [Doc(profileId, now, m)]
  {
    var p := NewMechanic(userId, licenseNumber, licenseExpiry, skills, yearsOfExperience, shopName, shopAddress);
    if p.Threw? {
      return Some(p.fault);
    }
    if FindFirst(db.mechanics, LicenseIs(licenseNumber)).Some? {
      return Some(DuplicateKey("licenseNumber"));
    }
    AddMechanic(db, Doc(profileId, now, p.value));
    fault := None;
  }

  /** `Mechanic.create` once its validators have passed. */
  method AddMechanic(db: Db, m: Doc<Mechanic>)
    requires db.Valid() && Fresh(db.mechanics, m.id) && RatingConsistent(m.fields)
    requires FindFirst(db.mechanics, LicenseIs(m.fields.licenseNumber)).None?
    requires forall k :: 0 <= k < |db.mechanics| ==> db.mechanics[k].fields.userId != m.fields.userId
    modifies db`mechanics
    ensures db.Valid() && db.mechanics == old(db.mechanics) + [m]
  {
    AppendKeepsUnique(db.mechanics, m, IdOf);
    AppendKeepsUnique(db.mechanics, m, OwnerOf);
    assert forall k :: 0 <= k < |db.mechanics| ==> !LicenseIs(m.fields.licenseNumber)(db.mechanics[k]);
    AppendKeepsUnique(db.mechanics, m, License);
    db.mechanics := db.mechanics + [m];
  }

  // ---------------------------------------------------------------------------
  // login

  function EmailIs(email: string): Doc<User> -> bool {
    (u: Doc<User>) => u.fields.email == Lower(email)
  }

  /** `login`. An unknown e-mail and a wrong password get the same answer.
      The account's `isActive` flag is not consulted. */
  function Login(db: Db, email: Option<string>, password: Option<string>,
                 matches: (string, string) -> bool, sign: (Id, Role) -> string): (r: Reply<AuthData>)
    reads db`users
    ensures !HasText(email) || !HasText(password) ==> r == ErrorResponse(400, "Please provide email and password")
    ensures r.body.Succeeded() <==>
      && HasText(email) && HasText(password) && FindFirst(db.users, EmailIs(email.value)).Some?
      && matches(password.value, db.users[FindFirst(db.users, EmailIs(email.value)).value].fields.password)
    ensures HasText(email) && HasText(password) && !r.body.Succeeded() ==> r == ErrorResponse(401, BadCredentials)
    ensures r.body.Succeeded() ==>
      var u := db.users[FindFirst(db.users, EmailIs(email.value)).value];
      && u.fields.email == Lower(email.value)
      && r == SuccessResponse(200, "Login successful", Some(LoggedIn(AccountOf(u), u.fields.profilePicture, sign(u.id, u.fields.role))))
  {
    if !HasText(email) || !HasText(password) then ErrorResponse(400, "Please provide email and password")
    else match FindFirst(db.users, EmailIs(email.value))
      case None => ErrorResponse(401, BadCredentials)
      case Some(i) =>
        var u := db.users[i];
        if !matches(password.value, u.fields.password) then ErrorResponse(401, BadCredentials)
        else SuccessResponse(200, "Login successful", Some(LoggedIn(AccountOf(u), u.fields.profilePicture, sign(u.id, u.fields.role))))
  }

  /** The e-mail is matched whatever its letter case: `Bob@x.io` logs in the
      account stored as `bob@x.io`. */
  lemma LoginIgnoresCase(db: Db, email: string, password: Option<string>,
                         matches: (string, string) -> bool, sign: (Id, Role) -> string)
    requires email != ""
    ensures Login(db, Some(email), password, matches, sign) == Login(db, Some(Lower(email)), password, matches, sign)
  {
    LowerIdempotent(email);
    assert EmailIs(email) == EmailIs(Lower(email));
    assert Lower(email) != "" by {
      assert |Lower(email)| == |email|;
    }
  }

  /** An account just registered logs in with its e-mail, in any letter case,
      and the password whose hash was stored. */
  lemma LoginAfterRegister(db: Db, before: seq<Doc<User>>, u: Doc<User>, email: string, password: string,
                           matches: (string, string) -> bool, sign: (Id, Role) -> string)
    requires db.users == before + [u] && Unclaimed(before, email, u.fields.phone)
    requires u.fields.email == Lower(email) && email != "" && password != "" && matches(password, u.fields.password)
    ensures Login(db, Some(email), Some(password), matches, sign) ==
            SuccessResponse(200, "Login successful", Some(LoggedIn(AccountOf(u), u.fields.profilePicture, sign(u.id, u.fields.role))))
  {
    assert FindFirst(db.users, EmailIs(email)) == Some(|before|) by {
      assert EmailIs(email)(db.users[|before|]);
      forall j | 0 <= j < |before| ensures !EmailIs(email)(db.users[j]) {
        assert db.users[j] == before[j];
      }
    }
  }

  // ---------------------------------------------------------------------------
  // getCurrentUser

  function InfoOf(m: Mechanic): MechanicInfo {
    MechanicInfo(m.licenseNumber, m.skills, m.yearsOfExperience, m.shopName, m.isVerified,
                 m.totalRating, m.totalReviews, m.totalEarnings)
  }

  /** `getCurrentUser`: the caller's account as stored now, and for a mechanic
      the profile's licence, skills and aggregates. A mechanic account without
      a profile makes the handler read a property of `null`: a 500. */
  function GetCurrentUser(db: Db, me: Doc<User>): (r: Reply<AuthData>)
    reads db`users, db`mechanics
    ensures Fresh(db.users, me.id) <==> r == ErrorResponse(404, "User not found")
    ensures !Fresh(db.users, me.id) ==>
      var u := db.users[Find(db.users, me.id).value];
      var profile := FindFirst(db.mechanics, ProfileOf(me.id));
      && (u.fields.role == MechanicRole && profile.None? ==> r == ServerError("Failed to fetch user: ", NullRead("licenseNumber")))
      && (u.fields.role != MechanicRole ==>
            r == SuccessResponse(200, "User fetched successfully",
                                 Some(Current(AccountOf(u), u.fields.profilePicture, u.fields.address, u.fields.isEmailVerified, None))))
      && (u.fields.role == MechanicRole && profile.Some? ==>
            r == SuccessResponse(200, "User fetched successfully",
                                 Some(Current(AccountOf(u), u.fields.profilePicture, u.fields.address, u.fields.isEmailVerified,
                                              Some(InfoOf(db.mechanics[profile.value].fields))))))
  {
    match Find(db.users, me.id)
    case None => ErrorResponse(404, "User not found")
    case Some(i) =>
      var u := db.users[i];
      if u.fields.role != MechanicRole then
        SuccessResponse(200, "User fetched successfully",
                        Some(Current(AccountOf(u), u.fields.profilePicture, u.fields.address, u.fields.isEmailVerified, None)))
      else match FindFirst(db.mechanics, ProfileOf(u.id))
        case None => ServerError("Failed to fetch user: ", NullRead("licenseNumber"))
        case Some(j) =>
          SuccessResponse(200, "User fetched successfully",
                          Some(Current(AccountOf(u), u.fields.profilePicture, u.fields.address, u.fields.isEmailVerified,
                                       Some(InfoOf(db.mechanics[j].fields)))))
  }

  // ---------------------------------------------------------------------------
  // updateProfile

  /** The user after `findByIdAndUpdate` with the given fields: an absent field
      is left as it is; no validator runs, so an empty text is stored as given. */
  function WithProfile(u: User, firstName: Option<string>, lastName: Option<string>, phone: Option<string>,
                       address: Option<Address>, profilePicture: Option<string>): (r: User)
    ensures r.email == u.email && r.password == u.password && r.role == u.role
    ensures r.isActive == u.isActive && r.isEmailVerified == u.isEmailVerified
    ensures r.firstName == firstName.GetOr(u.firstName) && r.lastName == lastName.GetOr(u.lastName)
    ensures r.phone == phone.GetOr(u.phone)
    ensures r.address == (if address.Some? then address else u.address)
    ensures r.profilePicture == (if profilePicture.Some? then profilePicture else u.profilePicture)
  {
    u.(firstName := firstName.GetOr(u.firstName), lastName := lastName.GetOr(u.lastName), phone := phone.GetOr(u.phone),
       address := if address.Some? then address else u.address,
       profilePicture := if profilePicture.Some? then profilePicture else u.profilePicture)
  }

  /** An update with no field leaves the user as it is. */
  lemma EmptyUpdateKeepsUser(u: User)
    ensures WithProfile(u, None, None, None, None, None) == u
  {
  }

  function OtherWithPhone(me: Id, phone: string): Doc<User> -> bool {
    (u: Doc<User>) => u.id != me && u.fields.phone == phone
  }

  /** Storing the caller's new profile keeps the users valid when its phone is
      no other account's. */
  lemma ProfileUpdateOk(s: seq<Doc<User>>, i: nat, u: Doc<User>)
    requires UsersOk(s) && i < |s| && u.id == s[i].id && u.fields.email == s[i].fields.email
    requires u.fields.password == s[i].fields.password
    requires u.fields.phone == s[i].fields.phone || FindFirst(s, OtherWithPhone(u.id, u.fields.phone)).None?
    ensures UsersOk(s[i := u])
  {
    UpdateKeepsUnique(s, i, u, IdOf);
    UpdateKeepsUnique(s, i, u, Email);
    var t := s[i := u];
    forall j | 0 <= j < |s| && j != i ensures Phone(s[j]) != Phone(u) {
      assert s[j].id != u.id by { if j < i { assert IdOf(s[j]) != IdOf(s[i]); } else { assert IdOf(s[i]) != IdOf(s[j]); } }
      if u.fields.phone != s[i].fields.phone {
        assert !OtherWithPhone(u.id, u.fields.phone)(s[j]);
      } else if j < i {
        assert Phone(s[j]) != Phone(s[i]);
      } else {
        assert Phone(s[i]) != Phone(s[j]);
      }
    }
    UpdateToNewKeyKeepsUnique(s, i, u, Phone);
    forall k | 0 <= k < |t| ensures StoredUser(t[k].fields) {
      if k != i { assert t[k] == s[k]; }
    }
  }

  /** `updateProfile`: the caller's own account only. A phone another account
      already has is refused by the unique index (a 500); a caller whose account
      has gone makes the handler read a property of `null` (a 500). */
  method UpdateProfile(db: Db, me: Doc<User>, firstName: Option<string>, lastName: Option<string>, phone: Option<string>,
                       address: Option<Address>, profilePicture: Option<string>) returns (r: Reply<AuthData>)
    requires db.Valid()
    modifies db`users
    ensures db.Valid()
    ensures match Find(old(db.users), me.id)
      case None => r == ServerError("Failed to update profile: ", NullRead("_id")) && db.users == old(db.users)
      case Some(i) =>
        if phone.Some? && FindFirst(old(db.users), OtherWithPhone(me.id, phone.value)).Some? then
          r == ServerError("Failed to update profile: ", DuplicateKey("phone")) && db.users == old(db.users)
        else
          var u := old(db.users)[i];
          var v := WithProfile(u.fields, firstName, lastName, phone, address, profilePicture);
          && db.users == old(db.users)[i := u.(fields := v)]
          && r == SuccessResponse(200, "Profile updated successfully",
                                  Some(ProfileUpdated(u.id, v.firstName, v.lastName, v.email, v.phone, v.address, v.profilePicture)))
  {
    var found := Find(db.users, me.id);
    if found.None? {
      return ServerError("Failed to update profile: ", NullRead("_id"));
    }
    var i := found.value;
    if phone.Some? && FindFirst(db.users, OtherWithPhone(me.id, phone.value)).Some? {
      return ServerError("Failed to update profile: ", DuplicateKey("phone"));
    }
    var u := db.users[i];
    var v := WithProfile(u.fields, firstName, lastName, phone, address, profilePicture);
    ProfileUpdateOk(db.users, i, u.(fields := v));
    db.users := db.users[i := u.(fields := v)];
    r := SuccessResponse(200, "Profile updated successfully",
                         Some(ProfileUpdated(u.id, v.firstName, v.lastName, v.email, v.phone, v.address, v.profilePicture)));
  }
}
