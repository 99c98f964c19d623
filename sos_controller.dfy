/** The SOS handlers (`controllers/sosController.js`): raising an alert with a
    map link, listing one's own alerts, resolving an alert, and the active
    alerts near a point. The spatial `$near` query is done by the store:
    `within(center, point, metres)` says whether a stored point lies within
    that many metres of the centre, and `candidates` is what the store returns
    for the query. `show` is JavaScript's text of a number in a template
    literal. */
module SosController {
  import opened Wrappers
  import opened Js
  import opened Docs
  import opened Response
  import opened UserModel
  import opened SosModel
  import opened Database

  datatype SosData =
    | Raised(id: Id, liveLocationLink: string, status: SosStatus)
    | Alerts(alerts: seq<Doc<Sos>>)
    | StatusOnly(status: SosStatus)

  const MapsPrefix := "https://maps.google.com/?q="
  const DefaultRadiusKm := 10.0

  // ---------------------------------------------------------------------------
  // createSOS

  /** The live location link: latitude first, then longitude. */
  function LocationLink(latitude: real, longitude: real, show: real -> string): string {
    MapsPrefix + show(latitude) + "," + show(longitude)
  }

  /** `createSOS`: an active alert of the caller's at the given point. An
      emergency type outside the enum is refused by the schema (a 500). */
  method CreateSos(db: Db, me: Doc<User>, location: Option<LocationInput>, emergencyType: Option<string>,
                   description: Option<string>, contacts: seq<Contact>, show: real -> string, newId: Id, now: int)
    returns (r: Reply<SosData>)
    requires db.Valid() && Fresh(db.alerts, newId)
    modifies db`alerts
    ensures db.Valid()
    ensures location.None? || !HasText(emergencyType) ==>
      r == ErrorResponse(400, "Please provide location and emergency type") && db.alerts == old(db.alerts)
    ensures location.Some? && HasText(emergencyType) ==>
      match NewSos(me.id, PointFor(location.value.latitude, location.value.longitude, location.value.address),
                   emergencyType.value, description, contacts,
                   LocationLink(location.value.latitude, location.value.longitude, show), Active)
      case Threw(f) => r == ServerError("Failed to create SOS: ", f) && db.alerts == old(db.alerts)
      case Done(a) =>
        && db.alerts == old(db.alerts) + [Doc(newId, now, a)]
        && r == SuccessResponse(201, "SOS alert created", Some(Raised(newId, a.liveLocationLink, Active)))
  {
    if location.None? || !HasText(emergencyType) {
      return ErrorResponse(400, "Please provide location and emergency type");
    }
    var loc := location.value;
    var link := LocationLink(loc.latitude, loc.longitude, show);
    var o := NewSos(me.id, PointFor(loc.latitude, loc.longitude, loc.address), emergencyType.value, description,
                    contacts, link, Active);
    if o.Threw? {
      return ServerError("Failed to create SOS: ", o.fault);
    }
    var alert := Doc(newId, now, o.value);
    AppendKeepsUnique(db.alerts, alert, IdOf);
    db.alerts := db.alerts + [alert];
    r := SuccessResponse(201, "SOS alert created", Some(Raised(newId, o.value.liveLocationLink, Active)));
  }

  /** A new alert is active, and it stores the point as `[longitude, latitude]`
      while its link names the same point latitude first. */
  lemma NewAlertPoint(me: Id, loc: LocationInput, emergencyType: string, description: Option<string>,
                      contacts: seq<Contact>, show: real -> string)
    requires ParseEmergencyType(emergencyType).Some?
    ensures var a := NewSos(me, PointFor(loc.latitude, loc.longitude, loc.address), emergencyType, description,
                            contacts, LocationLink(loc.latitude, loc.longitude, show), Active).value;
      && a.status == Active && a.userId == me
      && a.location.coordinates == [loc.longitude, loc.latitude]
      && a.liveLocationLink == MapsPrefix + show(a.location.coordinates[1]) + "," + show(a.location.coordinates[0])
  {
    var p := PointFor(loc.latitude, loc.longitude, loc.address);
    assert p.coordinates == [loc.longitude, loc.latitude];
  }

  // ---------------------------------------------------------------------------
  // getUserSOSAlerts

  function RaisedBy(userId: Id): Doc<Sos> -> bool {
    (a: Doc<Sos>) => a.fields.userId == userId
  }

  /** `getUserSOSAlerts`: the caller's alerts, newest first. */
  function GetUserSosAlerts(db: Db, me: Doc<User>): (r: Reply<SosData>)
    reads db`alerts
    ensures r.status == 200 && r.body.Success? && r.body.data.Some? && r.body.data.value.Alerts?
    ensures Descending(r.body.data.value.alerts, CreatedAt)
    ensures multiset(r.body.data.value.alerts) == multiset(Filter(db.alerts, RaisedBy(me.id)))
  {
    SuccessResponse(200, "SOS alerts fetched", Some(Alerts(SortDesc(Filter(db.alerts, RaisedBy(me.id)), CreatedAt))))
  }

  /** The list holds an alert exactly when the caller raised it. */
  lemma UserAlertsExact(db: Db, me: Doc<User>, a: Doc<Sos>)
    ensures a in GetUserSosAlerts(db, me).body.data.value.alerts <==> a in db.alerts && a.fields.userId == me.id
  {
    var shown := GetUserSosAlerts(db, me).body.data.value.alerts;
    assert a in shown <==> a in multiset(shown);
    assert a in Filter(db.alerts, RaisedBy(me.id)) <==> a in multiset(Filter(db.alerts, RaisedBy(me.id)));
  }

  // ---------------------------------------------------------------------------
  // resolveSOSAlert

  /** The alert after `resolveSOSAlert`: whatever its status was. */
  function ResolvedBy(a: Doc<Sos>, me: Id, now: int): (r: Doc<Sos>)
    ensures r.fields.status == Resolved && r.fields.respondedBy == Some(me) && r.fields.respondedAt == Some(now)
    ensures r.id == a.id && r.createdAt == a.createdAt && r.fields.userId == a.fields.userId
    ensures r.fields.location == a.fields.location && r.fields.emergencyType == a.fields.emergencyType
    ensures r.fields.description == a.fields.description && r.fields.contacts == a.fields.contacts
    ensures r.fields.liveLocationLink == a.fields.liveLocationLink
  {
    a.(fields := a.fields.(status := Resolved, respondedAt := Some(now), respondedBy := Some(me)))
  }

  /** Resolving twice leaves the alert as the second call would on its own: the
      status stays resolved and only the response time moves. */
  lemma ResolveTwice(a: Doc<Sos>, me: Id, first: int, second: int)
    ensures ResolvedBy(ResolvedBy(a, me, first), me, second) == ResolvedBy(a, me, second)
    ensures ResolvedBy(ResolvedBy(a, me, first), me, second).fields.status == ResolvedBy(a, me, first).fields.status
  {
  }

  /** `resolveSOSAlert`: only the alert's owner, whatever its status. */
  method ResolveSos(db: Db, me: Doc<User>, sosId: Id, now: int) returns (r: Reply<SosData>)
    requires db.Valid()
    modifies db`alerts
    ensures db.Valid()
    ensures match Find(old(db.alerts), sosId)
      case None => r == ErrorResponse(404, "SOS alert not found") && db.alerts == old(db.alerts)
      case Some(i) =>
        if old(db.alerts)[i].fields.userId != me.id then
          r == ErrorResponse(403, "Unauthorized to resolve this SOS") && db.alerts == old(db.alerts)
        else
          && db.alerts == old(db.alerts)[i := ResolvedBy(old(db.alerts)[i], me.id, now)]
          && r == SuccessResponse(200, "SOS resolved", Some(StatusOnly(Resolved)))
  {
    var found := Find(db.alerts, sosId);
    if found.None? {
      return ErrorResponse(404, "SOS alert not found");
    }
    var i := found.value;
    if db.alerts[i].fields.userId != me.id {
      return ErrorResponse(403, "Unauthorized to resolve this SOS");
    }
    var a := ResolvedBy(db.alerts[i], me.id, now);
    UpdateKeepsUnique(db.alerts, i, a, IdOf);
    db.alerts := db.alerts[i := a];
    r := SuccessResponse(200, "SOS resolved", Some(StatusOnly(Resolved)));
  }

  // ---------------------------------------------------------------------------
  // getNearbySOSAlerts

  /** `radius * 1000`, the default being 10 km. */
  function RadiusMetres(radius: Option<real>): real {
    radius.GetOr(DefaultRadiusKm) * 1000.0
  }

  /** The query's filter: active, and located within `metres` of the centre. */
  function NearbyActive(within: (seq<real>, seq<real>, real) -> bool, center: seq<real>, metres: real): Doc<Sos> -> bool {
    (a: Doc<Sos>) => a.fields.status == Active && within(center, a.fields.location.coordinates, metres)
  }

  /** `getNearbySOSAlerts`: 400 without both coordinates; otherwise what the
      store finds, newest first. */
  function GetNearbySosAlerts(db: Db, latitude: Option<real>, longitude: Option<real>, radius: Option<real>,
                              within: (seq<real>, seq<real>, real) -> bool, candidates: seq<Doc<Sos>>): (r: Reply<SosData>)
    reads db`alerts
    requires latitude.Some? && longitude.Some? ==>
      multiset(candidates) == multiset(Filter(db.alerts, NearbyActive(within, [longitude.value, latitude.value],
                                                                     RadiusMetres(radius))))
    ensures latitude.None? || longitude.None? <==> r == ErrorResponse(400, "Please provide latitude and longitude")
    ensures latitude.Some? && longitude.Some? ==>
      && r.status == 200 && r.body.Success? && r.body.data.Some? && r.body.data.value.Alerts?
      && Descending(r.body.data.value.alerts, CreatedAt)
      && multiset(r.body.data.value.alerts) == multiset(candidates)
  {
    if latitude.None? || longitude.None? then ErrorResponse(400, "Please provide latitude and longitude")
    else SuccessResponse(200, "Nearby SOS alerts found", Some(Alerts(SortDesc(candidates, CreatedAt))))
  }

  /** The answer lists an alert exactly when it is stored, active, and within
      the radius (ten kilometres by default) of the point asked about. */
  lemma NearbyAlertsExact(db: Db, latitude: real, longitude: real, radius: Option<real>,
                          within: (seq<real>, seq<real>, real) -> bool, candidates: seq<Doc<Sos>>, a: Doc<Sos>)
    requires multiset(candidates) == multiset(Filter(db.alerts, NearbyActive(within, [longitude, latitude], RadiusMetres(radius))))
    ensures a in GetNearbySosAlerts(db, Some(latitude), Some(longitude), radius, within, candidates).body.data.value.alerts <==>
      a in db.alerts && a.fields.status == Active && within([longitude, latitude], a.fields.location.coordinates, RadiusMetres(radius))
  {
    var shown := GetNearbySosAlerts(db, Some(latitude), Some(longitude), radius, within, candidates).body.data.value.alerts;
    var near := Filter(db.alerts, NearbyActive(within, [longitude, latitude], RadiusMetres(radius)));
    assert a in shown <==> a in multiset(shown);
    assert a in near <==> a in multiset(near);
  }
}
