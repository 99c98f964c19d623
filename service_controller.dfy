/** The service-request handlers (`controllers/serviceController.js`): a user
    opens a request, finds mechanics near by, lists and cancels requests;
    mechanics list the open requests near them.

    The spatial `$near` query is done by the store: `within(center, point, metres)`
    says whether a stored point lies within that many metres of the centre, and
    `candidates` is what the store returns for the query: the matching documents
    in an order the model does not fix (nearest first in the store). */
module ServiceController {
  import opened Wrappers
  import opened Js
  import opened Docs
  import opened Response
  import opened UserModel
  import opened MechanicModel
  import opened ServiceRequestModel
  import opened Database

  /** What a nearby-mechanics answer lists for each mechanic. */
  datatype MechanicCard = MechanicCard(
    id: Id,
    name: string,
    profilePicture: Option<string>,
    phone: string,
    skills: seq<Skill>,
    rating: int,
    reviews: int,
    experience: int,
    shopName: Option<string>)

  datatype ServiceData =
    | CreatedRequest(id: Id, title: string, status: RequestStatus)
    | Mechanics(cards: seq<MechanicCard>)
    | Requests(requests: seq<Doc<ServiceRequest>>)
    | OneRequest(request: Doc<ServiceRequest>)

  const MissingFields := "Please provide all required fields"
  const MissingCoordinates := "Please provide latitude and longitude"
  const DefaultMaxDistanceKm := 10.0

  /** `priority || 'medium'`. */
  function PriorityOr(priority: Option<string>): (p: string)
    ensures HasText(priority) ==> p == priority.value
    ensures !HasText(priority) ==> p == PriorityName(Medium)
  {
    if HasText(priority) then priority.value else "medium"
  }

  // ---------------------------------------------------------------------------
  // createServiceRequest

  /** `createServiceRequest`. A request is stored only when the four required
      fields are given and the schema accepts the issue type and the priority;
      the `new-request` broadcast to mechanics is not part of this model. */
  method CreateServiceRequest(db: Db, me: Doc<User>, title: Option<string>, description: Option<string>,
                              issueType: Option<string>, location: Option<LocationInput>,
                              priority: Option<string>, newId: Id, now: int) returns (r: Reply<ServiceData>)
    requires db.Valid() && Fresh(db.requests, newId)
    modifies db`requests
    ensures db.Valid()
    ensures !HasText(title) || !HasText(description) || !HasText(issueType) || location.None? ==>
      r == ErrorResponse(400, MissingFields) && db.requests == old(db.requests)
    ensures HasText(title) && HasText(description) && HasText(issueType) && location.Some? ==>
      var point := PointFor(location.value.latitude, location.value.longitude, location.value.address);
      var o := NewServiceRequest(me.id, title.value, description.value, issueType.value, point, PriorityOr(priority), Pending);
      && (o.Threw? ==> r == ServerError("Failed to create service request: ", o.fault) && db.requests == old(db.requests))
      && (o.Done? ==> && db.requests == old(db.requests) + [Doc(newId, now, o.value)]
                      && r == SuccessResponse(201, "Service request created successfully",
                                              Some(CreatedRequest(newId, title.value, Pending))))
  {
    if !HasText(title) || !HasText(description) || !HasText(issueType) || location.None? {
      return ErrorResponse(400, MissingFields);
    }
    var loc := location.value;
    var point := PointFor(loc.latitude, loc.longitude, loc.address);
    var o := NewServiceRequest(me.id, title.value, description.value, issueType.value, point, PriorityOr(priority), Pending);
    if o.Threw? {
      return ServerError("Failed to create service request: ", o.fault);
    }
    AppendKeepsUnique(db.requests, Doc(newId, now, o.value), IdOf);
    db.requests := db.requests + [Doc(newId, now, o.value)];
    r := SuccessResponse(201, "Service request created successfully", Some(CreatedRequest(newId, title.value, Pending)));
  }

  /** Every request the handler stores is pending, unassigned, owned by the
      caller, at `[longitude, latitude]`, and of medium priority unless one was given. */
  lemma CreatedRequestShape(me: Doc<User>, title: string, description: string, issueType: string,
                            loc: LocationInput, priority: Option<string>)
    requires NewServiceRequest(me.id, title, description, issueType,
                               PointFor(loc.latitude, loc.longitude, loc.address), PriorityOr(priority), Pending).Done?
    ensures var q := NewServiceRequest(me.id, title, description, issueType,
                                       PointFor(loc.latitude, loc.longitude, loc.address), PriorityOr(priority), Pending).value;
      && q.status == Pending && q.mechanicId.None? && q.userId == me.id
      && q.location.coordinates == [loc.longitude, loc.latitude]
      && (!HasText(priority) ==> q.priority == Medium)
      && (HasText(priority) ==> PriorityName(q.priority) == priority.value)
  {
    var q := NewServiceRequest(me.id, title, description, issueType,
                               PointFor(loc.latitude, loc.longitude, loc.address), PriorityOr(priority), Pending).value;
    if !HasText(priority) {
      assert PriorityName(q.priority) == "medium";
    }
  }

  // ---------------------------------------------------------------------------
  // getNearbyMechanics

  /** The query's filter: verified, available, and located within `metres`. */
  function NearbyMechanic(within: (seq<real>, seq<real>, real) -> bool, center: seq<real>, metres: real): Doc<Mechanic> -> bool {
    (m: Doc<Mechanic>) =>
      m.fields.isVerified && m.fields.isAvailable && m.fields.location.Some?
      && within(center, m.fields.location.value.coordinates, metres)
  }

  /** `m.skills.includes(skill)`. */
  function HasSkill(skill: string): Doc<Mechanic> -> bool {
    (m: Doc<Mechanic>) => skill in SkillNames(m.fields.skills)
  }

  /** `if (skillRequired) filtered = mechanics.filter(...)`. */
  function SkillFilter(ms: seq<Doc<Mechanic>>, skill: Option<string>): (r: seq<Doc<Mechanic>>)
    ensures !HasText(skill) ==> r == ms
    ensures HasText(skill) ==> forall i :: 0 <= i < |r| ==> r[i] in ms && skill.value in SkillNames(r[i].fields.skills)
    ensures HasText(skill) ==> forall i :: 0 <= i < |ms| && skill.value in SkillNames(ms[i].fields.skills) ==> ms[i] in r
  {
    if HasText(skill) then Filter(ms, HasSkill(skill.value)) else ms
  }

  /** The card of one mechanic whose user is `u`. */
  function CardOf(m: Doc<Mechanic>, u: User): MechanicCard {
    MechanicCard(m.id, u.firstName + " " + u.lastName, u.profilePicture, u.phone, m.fields.skills,
                 m.fields.totalRating, m.fields.totalReviews, m.fields.yearsOfExperience, m.fields.shopName)
  }

  /** `filtered.map(...)` over the populated mechanics: a mechanic whose user is
      gone has `userId` null, and reading its `firstName` throws. */
  function Cards(users: seq<Doc<User>>, ms: seq<Doc<Mechanic>>): (r: Outcome<seq<MechanicCard>>)
    ensures r.Done? <==> forall i :: 0 <= i < |ms| ==> !Fresh(users, ms[i].fields.userId)
    ensures r.Threw? ==> r.fault == NullRead("firstName")
    ensures r.Done? ==> |r.value| == |ms| && forall i :: 0 <= i < |ms| ==>
      r.value[i] == CardOf(ms[i], users[Find(users, ms[i].fields.userId).value].fields)
  {
    if ms == [] then Done([])
    else match Find(users, ms[0].fields.userId)
      case None => Threw(NullRead("firstName"))
      case Some(j) =>
        match Cards(users, ms[1..])
        case Threw(f) => Threw(f)
        case Done(rest) => Done([CardOf(ms[0], users[j].fields)] + rest)
  }

  /** The cards the handler answers with for what the store returned. */
  function NearbyCards(users: seq<Doc<User>>, candidates: seq<Doc<Mechanic>>, skill: Option<string>): Outcome<seq<MechanicCard>> {
    Cards(users, SkillFilter(candidates, skill))
  }

  /** `maxDistance * 1000`, the default being 10 km. */
  function SearchMetres(maxDistance: Option<real>): real {
    maxDistance.GetOr(DefaultMaxDistanceKm) * 1000.0
  }

  /** `getNearbyMechanics`: 400 without both coordinates; otherwise the cards of
      the mechanics the store finds, narrowed to the skill asked for. */
  function GetNearbyMechanics(db: Db, latitude: Option<real>, longitude: Option<real>, maxDistance: Option<real>,
                              skillRequired: Option<string>, within: (seq<real>, seq<real>, real) -> bool,
                              candidates: seq<Doc<Mechanic>>): (r: Reply<ServiceData>)
    reads db`mechanics, db`users
    requires latitude.Some? && longitude.Some? ==>
      multiset(candidates) == multiset(Filter(db.mechanics, NearbyMechanic(within, [longitude.value, latitude.value],
                                                                           SearchMetres(maxDistance))))
    ensures latitude.None? || longitude.None? <==> r == ErrorResponse(400, MissingCoordinates)
    ensures latitude.Some? && longitude.Some? ==>
      match NearbyCards(db.users, candidates, skillRequired)
      case Threw(f) => r == ServerError("Failed to find mechanics: ", f) && f == NullRead("firstName")
      case Done(cards) => r == SuccessResponse(200, "Nearby mechanics found", Some(Mechanics(cards)))
  {
    if latitude.None? || longitude.None? then ErrorResponse(400, MissingCoordinates)
    else
      match NearbyCards(db.users, candidates, skillRequired)
      case Threw(f) => ServerError("Failed to find mechanics: ", f)
      case Done(cards) => SuccessResponse(200, "Nearby mechanics found", Some(Mechanics(cards)))
  }

  /** Every card is of a verified, available mechanic within the distance that
      has the skill asked for: the i-th card shows the i-th mechanic left by the
      skill filter. */
  lemma NearbyCardsSound(mechanics: seq<Doc<Mechanic>>, candidates: seq<Doc<Mechanic>>, users: seq<Doc<User>>,
                         within: (seq<real>, seq<real>, real) -> bool, center: seq<real>, metres: real, skill: Option<string>)
    requires multiset(candidates) == multiset(Filter(mechanics, NearbyMechanic(within, center, metres)))
    requires NearbyCards(users, candidates, skill).Done?
    ensures var cards := NearbyCards(users, candidates, skill).value;
      var shown := SkillFilter(candidates, skill);
      && |cards| == |shown|
      && forall i :: 0 <= i < |cards| ==>
           && shown[i] in mechanics && NearbyMechanic(within, center, metres)(shown[i])
           && cards[i].id == shown[i].id && cards[i].skills == shown[i].fields.skills
           && (HasText(skill) ==> skill.value in SkillNames(cards[i].skills))
  {
    var shown := SkillFilter(candidates, skill);
    forall i | 0 <= i < |shown|
      ensures shown[i] in mechanics && NearbyMechanic(within, center, metres)(shown[i])
    {
      var m := shown[i];
      assert m in candidates;
      assert m in multiset(candidates);
      assert m in Filter(mechanics, NearbyMechanic(within, center, metres));
    }
  }

  /** Every verified, available mechanic near enough that has the skill asked for
      gets a card, whatever order the store returns them in. */
  lemma NearbyCardsComplete(mechanics: seq<Doc<Mechanic>>, candidates: seq<Doc<Mechanic>>, users: seq<Doc<User>>,
                            within: (seq<real>, seq<real>, real) -> bool, center: seq<real>, metres: real,
                            skill: Option<string>, m: Doc<Mechanic>)
    requires multiset(candidates) == multiset(Filter(mechanics, NearbyMechanic(within, center, metres)))
    requires m in mechanics && NearbyMechanic(within, center, metres)(m)
    requires HasText(skill) ==> skill.value in SkillNames(m.fields.skills)
    requires NearbyCards(users, candidates, skill).Done?
    ensures exists c :: c in NearbyCards(users, candidates, skill).value && c.id == m.id
  {
    var near := Filter(mechanics, NearbyMechanic(within, center, metres));
    assert m in candidates by {
      var k0 :| 0 <= k0 < |mechanics| && mechanics[k0] == m;
      assert m in near;
      assert m in multiset(near);
    }
    var filtered := SkillFilter(candidates, skill);
    var k := InFiltered(candidates, skill, m);
    CardAt(users, filtered, k);
  }

  /** A candidate with the skill asked for is among the filtered ones. */
  lemma InFiltered(candidates: seq<Doc<Mechanic>>, skill: Option<string>, m: Doc<Mechanic>) returns (k: nat)
    requires m in candidates && (HasText(skill) ==> skill.value in SkillNames(m.fields.skills))
    ensures k < |SkillFilter(candidates, skill)| && SkillFilter(candidates, skill)[k] == m
  {
    var filtered := SkillFilter(candidates, skill);
    var k0 :| 0 <= k0 < |candidates| && candidates[k0] == m;
    assert m in filtered;
    k :| 0 <= k < |filtered| && filtered[k] == m;
  }

  /** Each mechanic in the list gets its own card. */
  lemma CardAt(users: seq<Doc<User>>, ms: seq<Doc<Mechanic>>, k: nat)
    requires Cards(users, ms).Done? && k < |ms|
    ensures exists c :: c in Cards(users, ms).value && c.id == ms[k].id
  {
    var cards := Cards(users, ms).value;
    assert cards[k].id == ms[k].id;
  }

  // ---------------------------------------------------------------------------
  // getUserServiceRequests / getServiceRequestById

  function OwnedBy(userId: Id): Doc<ServiceRequest> -> bool {
    (q: Doc<ServiceRequest>) => q.fields.userId == userId
  }

  /** `getUserServiceRequests`: the caller's requests, newest first. */
  function GetUserServiceRequests(db: Db, me: Doc<User>): (r: Reply<ServiceData>)
    reads db`requests
    ensures r.status == 200 && r.body.Success? && r.body.data.Some? && r.body.data.value.Requests?
    ensures Descending(r.body.data.value.requests, CreatedAt)
    ensures multiset(r.body.data.value.requests) == multiset(Filter(db.requests, OwnedBy(me.id)))
  {
    SuccessResponse(200, "Service requests fetched", Some(Requests(SortDesc(Filter(db.requests, OwnedBy(me.id)), CreatedAt))))
  }

  /** The list holds a request exactly when the caller made it. */
  lemma UserRequestsExact(db: Db, me: Doc<User>, q: Doc<ServiceRequest>)
    ensures q in GetUserServiceRequests(db, me).body.data.value.requests <==> q in db.requests && q.fields.userId == me.id
  {
    var shown := GetUserServiceRequests(db, me).body.data.value.requests;
    var mine := Filter(db.requests, OwnedBy(me.id));
    assert q in shown <==> q in multiset(shown);
    assert q in mine <==> q in multiset(mine);
  }

  /** `getServiceRequestById`: any authenticated caller may read any request. */
  function GetServiceRequestById(db: Db, id: Id): (r: Reply<ServiceData>)
    reads db`requests
    ensures Fresh(db.requests, id) <==> r == ErrorResponse(404, "Service request not found")
    ensures r.status == 200 ==> r.body.Success? && r.body.data.Some? && r.body.data.value.OneRequest?
                                && r.body.data.value.request in db.requests && r.body.data.value.request.id == id
    ensures !Fresh(db.requests, id) ==>
              r.status == 200 && r.body.data == Some(OneRequest(db.requests[Find(db.requests, id).value]))
  {
    match Find(db.requests, id)
    case None => ErrorResponse(404, "Service request not found")
    case Some(i) => SuccessResponse(200, "Service request fetched", Some(OneRequest(db.requests[i])))
  }

  // ---------------------------------------------------------------------------
  // cancelServiceRequest

  /** `cancelServiceRequest`: 404, then 403 for another user's request, then 400
      unless it is still pending; otherwise only its status changes. */
  method CancelServiceRequest(db: Db, me: Doc<User>, id: Id) returns (r: Reply<ServiceData>)
    requires db.Valid()
    modifies db`requests
    ensures db.Valid()
    ensures Find(old(db.requests), id).None? ==> r == ErrorResponse(404, "Service request not found") && db.requests == old(db.requests)
    ensures Find(old(db.requests), id).Some? ==>
      var i := Find(old(db.requests), id).value;
      var q := old(db.requests)[i];
      if q.fields.userId != me.id then r == ErrorResponse(403, "Unauthorized to cancel this request") && db.requests == old(db.requests)
      else if q.fields.status != Pending then r == ErrorResponse(400, "Cannot cancel request in current status") && db.requests == old(db.requests)
      else && r == SuccessResponse(200, "Service request cancelled")
           && db.requests == old(db.requests)[i := q.(fields := q.fields.(status := Cancelled))]
  {
    var found := Find(db.requests, id);
    if found.None? {
      return ErrorResponse(404, "Service request not found");
    }
    var i := found.value;
    var q := db.requests[i];
    if q.fields.userId != me.id {
      return ErrorResponse(403, "Unauthorized to cancel this request");
    }
    if q.fields.status != Pending {
      return ErrorResponse(400, "Cannot cancel request in current status");
    }
    UpdateKeepsUnique(db.requests, i, q.(fields := q.fields.(status := Cancelled)), IdOf);
    db.requests := db.requests[i := q.(fields := q.fields.(status := Cancelled))];
    r := SuccessResponse(200, "Service request cancelled");
  }

  // ---------------------------------------------------------------------------
  // getNearbyServiceRequests

  /** The query's filter: pending, no mechanic yet, and within `metres`. */
  function OpenNearby(within: (seq<real>, seq<real>, real) -> bool, center: seq<real>, metres: real): Doc<ServiceRequest> -> bool {
    (q: Doc<ServiceRequest>) =>
      q.fields.status == Pending && q.fields.mechanicId.None?
      && within(center, q.fields.location.coordinates, metres)
  }

  /** `getNearbyServiceRequests`: the open requests the store finds near the point. */
  function GetNearbyServiceRequests(db: Db, latitude: Option<real>, longitude: Option<real>, maxDistance: Option<real>,
                                    within: (seq<real>, seq<real>, real) -> bool,
                                    candidates: seq<Doc<ServiceRequest>>): (r: Reply<ServiceData>)
    reads db`requests
    requires latitude.Some? && longitude.Some? ==>
      multiset(candidates) == multiset(Filter(db.requests, OpenNearby(within, [longitude.value, latitude.value],
                                                                      SearchMetres(maxDistance))))
    ensures latitude.None? || longitude.None? <==> r == ErrorResponse(400, MissingCoordinates)
    ensures latitude.Some? && longitude.Some? ==> r.status == 200 && r.body.Success? && r.body.data.Some? && r.body.data.value.Requests?
    ensures latitude.Some? && longitude.Some? ==> var qs := r.body.data.value.requests;
      && multiset(qs) == multiset(Filter(db.requests, OpenNearby(within, [longitude.value, latitude.value],
                                                                 SearchMetres(maxDistance))))
      && forall i :: 0 <= i < |qs| ==> qs[i] in db.requests && qs[i].fields.status == Pending && qs[i].fields.mechanicId.None?
  {
    if latitude.None? || longitude.None? then ErrorResponse(400, MissingCoordinates)
    else
      var near := Filter(db.requests, OpenNearby(within, [longitude.value, latitude.value],
                                                 SearchMetres(maxDistance)));
      assert forall i :: 0 <= i < |candidates| ==> candidates[i] in multiset(near);
      SuccessResponse(200, "Nearby service requests found", Some(Requests(candidates)))
  }
}
