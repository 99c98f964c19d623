/** The administrator's handlers (`controllers/adminController.js`). Each one
    first answers 403, with its own message, unless the caller's role is admin:
    verifying and rejecting mechanics, listing users and unverified mechanics,
    the dashboard counts, and blocking or unblocking a user. */
module AdminController {
  import opened Wrappers
  import opened Js
  import opened Docs
  import opened Response
  import opened UserModel
  import opened MechanicModel
  import opened Database

  datatype Pagination = Pagination(total: nat, page: int, pages: Option<int>)

  datatype Stats = Stats(totalUsers: nat, totalMechanics: nat, verifiedMechanics: nat, pendingMechanics: nat, totalRequests: nat)

  datatype AdminData =
    | Verified(id: Id, isVerified: bool)
    | UserPage(users: seq<UserView>, pagination: Pagination)
    | PendingMechanics(mechanics: seq<Doc<Mechanic>>)
    | Dashboard(stats: Stats)
    | UserStatus(isActive: bool)

  predicate IsAdmin(me: Doc<User>) {
    me.fields.role == AdminRole
  }

  // ---------------------------------------------------------------------------
  // verifyMechanic

  function MarkVerified(m: Doc<Mechanic>, admin: Id, now: int): Doc<Mechanic> {
    m.(fields := m.fields.(isVerified := true, verifiedAt := Some(now), verifiedBy := Some(admin)))
  }

  /** `verifyMechanic`: the profile is marked verified by the caller at `now`.
      For an unknown id the update finds nothing and reading its `_id` throws. */
  method VerifyMechanic(db: Db, me: Doc<User>, mechanicId: Id, now: int) returns (r: Reply<AdminData>)
    requires db.Valid()
    modifies db`mechanics
    ensures db.Valid()
    ensures !IsAdmin(me) ==>
      r == ErrorResponse(403, "Forbidden: Only admin can verify mechanics") && db.mechanics == old(db.mechanics)
    ensures IsAdmin(me) ==> match Find(old(db.mechanics), mechanicId)
      case None => r == ServerError("Failed to verify mechanic: ", NullRead("_id")) && db.mechanics == old(db.mechanics)
      case Some(i) =>
        && db.mechanics == old(db.mechanics)[i := MarkVerified(old(db.mechanics)[i], me.id, now)]
        && r == SuccessResponse(200, "Mechanic verified successfully", Some(Verified(mechanicId, true)))
  {
    if !IsAdmin(me) {
      return ErrorResponse(403, "Forbidden: Only admin can verify mechanics");
    }
    var found := Find(db.mechanics, mechanicId);
    if found.None? {
      return ServerError("Failed to verify mechanic: ", NullRead("_id"));
    }
    var i := found.value;
    MechanicUpdateOk(db.mechanics, i, MarkVerified(db.mechanics[i], me.id, now));
    db.mechanics := db.mechanics[i := MarkVerified(db.mechanics[i], me.id, now)];
    r := SuccessResponse(200, "Mechanic verified successfully", Some(Verified(mechanicId, true)));
  }

  // ---------------------------------------------------------------------------
  // getAllUsers

  /** The `role` query term: every user when it is absent or empty, otherwise
      the users whose role is spelled exactly so. */
  function RoleQuery(role: Option<string>): Doc<User> -> bool {
    (u: Doc<User>) => !HasText(role) || RoleName(u.fields.role) == role.value
  }

  /** A user as `User.find` returns it: every path but the password, which the
      schema never selects. */
  datatype UserView = UserView(id: Id, createdAt: int, firstName: string, lastName: string, email: string,
                               phone: string, role: Role, profilePicture: Option<string>, address: Option<Address>,
                               isActive: bool, isEmailVerified: bool)

  function Selected(u: Doc<User>): UserView {
    UserView(u.id, u.createdAt, u.fields.firstName, u.fields.lastName, u.fields.email, u.fields.phone, u.fields.role,
             u.fields.profilePicture, u.fields.address, u.fields.isActive, u.fields.isEmailVerified)
  }

  /** Two users look the same to `find` exactly when they differ at most in
      their password. */
  lemma SelectedDropsOnlyPassword(u: Doc<User>, w: Doc<User>)
    ensures Selected(u) == Selected(w) <==>
      u.id == w.id && u.createdAt == w.createdAt && u.fields.(password := w.fields.password) == w.fields
  {
  }

  /** The documents of a query result, each without its password. */
  function Views(us: seq<Doc<User>>): (r: seq<UserView>)
    ensures |r| == |us| && forall i :: 0 <= i < |us| ==> r[i] == Selected(us[i])
  {
    if us == [] then [] else [Selected(us[0])] + Views(us[1..])
  }

  /** `getAllUsers`: page `page` of `limit` users, newest first, optionally of one role. */
  function GetAllUsers(db: Db, me: Doc<User>, page: int := 1, limit: int := 10, role: Option<string> := None): (r: Reply<AdminData>)
    reads db`users
    ensures !IsAdmin(me) ==> r == ErrorResponse(403, "Forbidden: Only admin can view users")
    ensures IsAdmin(me) && (page - 1) * limit < 0 ==> r == ServerError("Failed to fetch users: ", NegativeSkip)
    ensures IsAdmin(me) && (page - 1) * limit >= 0 ==>
      var matching := Filter(db.users, RoleQuery(role));
      && r.status == 200 && r.body.Success? && r.body.data.Some? && r.body.data.value.UserPage?
      && r.body.data.value.users == Views(Page(SortDesc(matching, CreatedAt), (page - 1) * limit, limit))
      && r.body.data.value.pagination == Pagination(|matching|, page, CeilDiv(|matching|, limit))
  {
    if !IsAdmin(me) then ErrorResponse(403, "Forbidden: Only admin can view users")
    else
      var skip := (page - 1) * limit;
      if skip < 0 then ServerError("Failed to fetch users: ", NegativeSkip)
      else
        var matching := Filter(db.users, RoleQuery(role));
        SuccessResponse(200, "Users fetched",
                        Some(UserPage(Views(Page(SortDesc(matching, CreatedAt), skip, limit)),
                                      Pagination(|matching|, page, CeilDiv(|matching|, limit)))))
  }

  /** Every listed user is a stored user, shown without its password, and has
      the requested role. */
  lemma AllUsersMatchRole(db: Db, me: Doc<User>, page: int, limit: int, role: string)
    requires IsAdmin(me) && page >= 1 && limit >= 0 && role != ""
    ensures var d := GetAllUsers(db, me, page, limit, Some(role)).body.data.value;
      forall i :: 0 <= i < |d.users| ==>
        && (exists k :: 0 <= k < |db.users| && Selected(db.users[k]) == d.users[i])
        && RoleName(d.users[i].role) == role
  {
    SkipNonNegative(page, limit);
    var skip := (page - 1) * limit;
    var d := GetAllUsers(db, me, page, limit, Some(role)).body.data.value;
    assert d.users == Views(Page(SortDesc(Filter(db.users, RoleQuery(Some(role))), CreatedAt), skip, limit));
    ViewsHaveRole(db.users, role, skip, limit);
  }

  /** The page of users of one role shows stored users of that role. */
  lemma ViewsHaveRole(users: seq<Doc<User>>, role: string, skip: nat, limit: int)
    requires role != ""
    ensures var vs := Views(Page(SortDesc(Filter(users, RoleQuery(Some(role))), CreatedAt), skip, limit));
      forall i :: 0 <= i < |vs| ==>
        && (exists k :: 0 <= k < |users| && Selected(users[k]) == vs[i])
        && RoleName(vs[i].role) == role
  {
    var matching := Filter(users, RoleQuery(Some(role)));
    var sorted := SortDesc(matching, CreatedAt);
    var shown := Page(sorted, skip, limit);
    var vs := Views(shown);
    forall i | 0 <= i < |vs|
      ensures (exists k :: 0 <= k < |users| && Selected(users[k]) == vs[i]) && RoleName(vs[i].role) == role
    {
      assert vs[i] == Selected(shown[i]);
      assert shown[i] == sorted[skip + i];
      assert sorted[skip + i] in multiset(sorted);
      assert sorted[skip + i] in matching;
      var k :| 0 <= k < |users| && users[k] == shown[i];
      assert Selected(users[k]) == vs[i];
    }
  }

  // ---------------------------------------------------------------------------
  // getPendingMechanics

  function Unverified(m: Doc<Mechanic>): bool {
    !m.fields.isVerified
  }

  function VerifiedProfile(m: Doc<Mechanic>): bool {
    m.fields.isVerified
  }

  /** `getPendingMechanics`: every unverified profile, newest first. */
  function GetPendingMechanics(db: Db, me: Doc<User>): (r: Reply<AdminData>)
    reads db`mechanics
    ensures !IsAdmin(me) <==> r == ErrorResponse(403, "Forbidden: Only admin can view mechanics")
    ensures IsAdmin(me) ==>
      && r.status == 200 && r.body.Success? && r.body.data.Some? && r.body.data.value.PendingMechanics?
      && Descending(r.body.data.value.mechanics, CreatedAt)
      && multiset(r.body.data.value.mechanics) == multiset(Filter(db.mechanics, Unverified))
  {
    if !IsAdmin(me) then ErrorResponse(403, "Forbidden: Only admin can view mechanics")
    else SuccessResponse(200, "Pending mechanics fetched", Some(PendingMechanics(SortDesc(Filter(db.mechanics, Unverified), CreatedAt))))
  }

  // ---------------------------------------------------------------------------
  // getAdminDashboard

  function HasRole(role: Role): Doc<User> -> bool {
    (u: Doc<User>) => u.fields.role == role
  }

  /** `getAdminDashboard`: users and mechanic accounts by role, profiles by
      verification, and all service requests. */
  function GetAdminDashboard(db: Db, me: Doc<User>): (r: Reply<AdminData>)
    reads db`users, db`mechanics, db`requests
    ensures !IsAdmin(me) <==> r == ErrorResponse(403, "Forbidden: Only admin can view dashboard")
    ensures IsAdmin(me) ==>
      r == SuccessResponse(200, "Dashboard fetched",
                           Some(Dashboard(Stats(Count(db.users, HasRole(UserRole)), Count(db.users, HasRole(MechanicRole)),
                                                Count(db.mechanics, VerifiedProfile), Count(db.mechanics, Unverified),
                                                |db.requests|))))
  {
    if !IsAdmin(me) then ErrorResponse(403, "Forbidden: Only admin can view dashboard")
    else SuccessResponse(200, "Dashboard fetched",
                         Some(Dashboard(Stats(Count(db.users, HasRole(UserRole)), Count(db.users, HasRole(MechanicRole)),
                                              Count(db.mechanics, VerifiedProfile), Count(db.mechanics, Unverified),
                                              |db.requests|))))
  }

  /** Every profile is counted once, as verified or pending, and the two user
      counts together leave out exactly the administrators. */
  lemma DashboardCountsAddUp(db: Db, me: Doc<User>)
    requires IsAdmin(me)
    ensures var s := GetAdminDashboard(db, me).body.data.value.stats;
      && s.verifiedMechanics + s.pendingMechanics == |db.mechanics|
      && s.totalUsers + s.totalMechanics + Count(db.users, HasRole(AdminRole)) == |db.users|
  {
    CountSplits(db.mechanics, VerifiedProfile);
    assert Filter(db.mechanics, Not(VerifiedProfile)) == Filter(db.mechanics, Unverified) by {
      FilterSame(db.mechanics, Not(VerifiedProfile), Unverified);
    }
    RoleCounts(db.users);
  }

  lemma {:induction false} FilterSame<T>(s: seq<T>, p: T -> bool, q: T -> bool)
    requires forall x :: p(x) == q(x)
    ensures Filter(s, p) == Filter(s, q)
  {
    if s != [] {
      FilterSame(s[1..], p, q);
    }
  }

  lemma {:induction false} RoleCounts(users: seq<Doc<User>>)
    ensures Count(users, HasRole(UserRole)) + Count(users, HasRole(MechanicRole)) + Count(users, HasRole(AdminRole)) == |users|
  {
    if users != [] {
      RoleCounts(users[1..]);
    }
  }

  // ---------------------------------------------------------------------------
  // rejectMechanic

  /** `rejectMechanic`: the profile is deleted (an unknown id deletes nothing).
      The handler then looks the deleted profile up again to deactivate its
      account, which therefore never happens (`DeletedProfileGone`): the users
      are left as they were. */
  method RejectMechanic(db: Db, me: Doc<User>, mechanicId: Id) returns (r: Reply<()>)
    requires db.Valid()
    modifies db`mechanics
    ensures db.Valid()
    ensures !IsAdmin(me) ==>
      r == ErrorResponse(403, "Forbidden: Only admin can reject mechanics") && db.mechanics == old(db.mechanics)
    ensures IsAdmin(me) ==>
      && (Fresh(old(db.mechanics), mechanicId) ==> db.mechanics == old(db.mechanics))
      && (!Fresh(old(db.mechanics), mechanicId) ==> db.mechanics == RemoveAt(old(db.mechanics), Find(old(db.mechanics), mechanicId).value))
      && Fresh(db.mechanics, mechanicId)
      && r == SuccessResponse(200, "Mechanic rejected")
    ensures db.users == old(db.users)
  {
    if !IsAdmin(me) {
      return ErrorResponse(403, "Forbidden: Only admin can reject mechanics");
    }
    var found := Find(db.mechanics, mechanicId);
    if found.Some? {
      DeleteProfile(db, found.value);
    }
    r := SuccessResponse(200, "Mechanic rejected");
  }

  /** `Mechanic.findByIdAndDelete` of the profile at position `i`. */
  method DeleteProfile(db: Db, i: nat)
    requires db.Valid() && i < |db.mechanics|
    modifies db`mechanics
    ensures db.Valid()
    ensures db.mechanics == RemoveAt(old(db.mechanics), i) && Fresh(db.mechanics, old(db.mechanics)[i].id)
  {
    DeletedProfileGone(db.mechanics, i);
    RemoveKeepsUnique(db.mechanics, i, IdOf);
    RemoveKeepsUnique(db.mechanics, i, OwnerOf);
    RemoveKeepsUnique(db.mechanics, i, License);
    db.mechanics := RemoveAt(db.mechanics, i);
  }

  /** After `findByIdAndDelete`, `findById` with the same id finds nothing. */
  lemma DeletedProfileGone<T>(s: seq<Doc<T>>, i: nat)
    requires UniqueBy(s, IdOf) && i < |s|
    ensures Fresh(RemoveAt(s, i), s[i].id)
  {
    var t := RemoveAt(s, i);
    forall k | 0 <= k < |t| ensures t[k].id != s[i].id {
      if k < i {
        assert t[k] == s[k];
      } else {
        assert t[k] == s[k + 1];
      }
    }
  }

  /** `User.findByIdAndUpdate(userId, { isActive: false })` on the users. */
  function Deactivated(users: seq<Doc<User>>, userId: Id): (r: seq<Doc<User>>)
    ensures |r| == |users|
    ensures forall k :: 0 <= k < |r| ==> r[k].id == users[k].id
    ensures forall k :: 0 <= k < |r| && users[k].id != userId ==> r[k] == users[k]
    ensures UniqueBy(users, IdOf) ==> forall k :: 0 <= k < |r| && users[k].id == userId ==> !r[k].fields.isActive
  {
    match Find(users, userId)
    case None => users
    case Some(k) => users[k := users[k].(fields := users[k].fields.(isActive := false))]
  }

  lemma DeactivatedOk(users: seq<Doc<User>>, userId: Id)
    requires UsersOk(users)
    ensures UsersOk(Deactivated(users, userId))
  {
    match Find(users, userId)
    case None =>
    case Some(k) =>
      FlagsKeepStored(users[k].fields, false);
      UserUpdateOk(users, k, users[k].(fields := users[k].fields.(isActive := false)));
  }

  /** Deactivating after the deletion, as the comment in the handler intends:
      the profile's own account is read before the profile is deleted. */
  method RejectAndDeactivate(db: Db, me: Doc<User>, mechanicId: Id) returns (r: Reply<()>)
    requires db.Valid()
    modifies db`mechanics, db`users
    ensures db.Valid()
    ensures !IsAdmin(me) ==>
      && r == ErrorResponse(403, "Forbidden: Only admin can reject mechanics")
      && db.mechanics == old(db.mechanics) && db.users == old(db.users)
    ensures IsAdmin(me) ==> Fresh(db.mechanics, mechanicId) && r == SuccessResponse(200, "Mechanic rejected")
    ensures IsAdmin(me) && Fresh(old(db.mechanics), mechanicId) ==>
      db.mechanics == old(db.mechanics) && db.users == old(db.users)
    ensures IsAdmin(me) && !Fresh(old(db.mechanics), mechanicId) ==>
      && db.mechanics == RemoveAt(old(db.mechanics), Find(old(db.mechanics), mechanicId).value)
      && db.users == Deactivated(old(db.users), old(db.mechanics)[Find(old(db.mechanics), mechanicId).value].fields.userId)
  {
    if !IsAdmin(me) {
      return ErrorResponse(403, "Forbidden: Only admin can reject mechanics");
    }
    var found := Find(db.mechanics, mechanicId);
    if found.Some? {
      var i := found.value;
      var owner := db.mechanics[i].fields.userId;
      DeleteProfile(db, i);
      DeactivatedOk(db.users, owner);
      db.users := Deactivated(db.users, owner);
    }
    r := SuccessResponse(200, "Mechanic rejected");
  }

  // ---------------------------------------------------------------------------
  // toggleUserBlock

  function Toggled(u: Doc<User>): Doc<User> {
    u.(fields := u.fields.(isActive := !u.fields.isActive))
  }

  /** `toggleUserBlock`: the user's `isActive` flag is flipped, and `save()`
      validates the loaded user again: a name or phone that a profile update
      emptied makes it throw, and nothing is written. */
  method ToggleUserBlock(db: Db, me: Doc<User>, userId: Id) returns (r: Reply<AdminData>)
    requires db.Valid()
    modifies db`users
    ensures db.Valid()
    ensures !IsAdmin(me) ==> r == ErrorResponse(403, "Forbidden: Only admin can block users") && db.users == old(db.users)
    ensures IsAdmin(me) ==> match Find(old(db.users), userId)
      case None => r == ErrorResponse(404, "User not found") && db.users == old(db.users)
      case Some(i) =>
        match SaveFault(Toggled(old(db.users)[i]).fields)
        case Some(f) => r == ServerError("Failed to update user: ", f) && db.users == old(db.users)
        case None =>
          && db.users == old(db.users)[i := Toggled(old(db.users)[i])]
          && r == SuccessResponse(200, "User status updated", Some(UserStatus(!old(db.users)[i].fields.isActive)))
  {
    if !IsAdmin(me) {
      return ErrorResponse(403, "Forbidden: Only admin can block users");
    }
    var found := Find(db.users, userId);
    if found.None? {
      return ErrorResponse(404, "User not found");
    }
    var i := found.value;
    var u := db.users[i];
    var fault := SaveFault(Toggled(u).fields);
    if fault.Some? {
      return ServerError("Failed to update user: ", fault.value);
    }
    FlagsKeepStored(u.fields, !u.fields.isActive);
    UserUpdateOk(db.users, i, Toggled(u));
    db.users := db.users[i := Toggled(u)];
    r := SuccessResponse(200, "User status updated", Some(UserStatus(!u.fields.isActive)));
  }

  /** Toggling a user twice restores the stored users. */
  lemma ToggleTwiceRestores(users: seq<Doc<User>>, i: nat)
    requires i < |users|
    ensures var once := users[i := Toggled(users[i])];
      once[i := Toggled(once[i])] == users
  {
    var once := users[i := Toggled(users[i])];
    assert Toggled(once[i]) == users[i];
  }
}
