/** The SOS schema (`models/SOS.js`): an emergency alert, with its emergency
    type and status enums. */
module SosModel {
  import opened Wrappers
  import opened Response
  import opened Docs

  datatype EmergencyType = BreakdownEmergency | AccidentEmergency | Health | Threat | Other

  function EmergencyTypeName(t: EmergencyType): string {
    match t
    case BreakdownEmergency => "breakdown"
    case AccidentEmergency => "accident"
    case Health => "health"
    case Threat => "threat"
    case Other => "other"
  }

  function ParseEmergencyType(s: string): (r: Option<EmergencyType>)
    ensures forall k: EmergencyType :: r == Some(k) <==> EmergencyTypeName(k) == s
  {
    if s == "breakdown" then Some(BreakdownEmergency)
    else if s == "accident" then Some(AccidentEmergency)
    else if s == "health" then Some(Health)
    else if s == "threat" then Some(Threat)
    else if s == "other" then Some(Other)
    else None
  }

  datatype SosStatus = Active | Resolved | Cancelled

  function SosStatusName(s: SosStatus): string {
    match s
    case Active => "active"
    case Resolved => "resolved"
    case Cancelled => "cancelled"
  }

  function ParseSosStatus(s: string): (r: Option<SosStatus>)
    ensures forall k: SosStatus :: r == Some(k) <==> SosStatusName(k) == s
  {
    if s == "active" then Some(Active)
    else if s == "resolved" then Some(Resolved)
    else if s == "cancelled" then Some(Cancelled)
    else None
  }

  /** An emergency contact as the alert stores it. */
  datatype Contact = Contact(name: Option<string>, phone: Option<string>, email: Option<string>)

  /** A stored alert. */
  datatype Sos = Sos(
    userId: Id,
    location: GeoPoint,
    emergencyType: EmergencyType,
    description: Option<string>,
    contacts: seq<Contact>,
    status: SosStatus,
    liveLocationLink: string,
    respondedBy: Option<Id>,
    respondedAt: Option<int>)

  /** What `SOS.create` stores, or the enum validator's rejection of the emergency type. */
  function NewSos(userId: Id, location: GeoPoint, emergencyType: string, description: Option<string>,
                  contacts: seq<Contact>, liveLocationLink: string, status: SosStatus): (r: Outcome<Sos>)
    ensures r.Done? <==> ParseEmergencyType(emergencyType).Some?
    ensures r.Done? ==> var a := r.value;
      && a.userId == userId && a.location == location && EmergencyTypeName(a.emergencyType) == emergencyType
      && a.description == description && a.contacts == contacts && a.liveLocationLink == liveLocationLink
      && a.status == status && a.respondedBy.None? && a.respondedAt.None?
  {
    match ParseEmergencyType(emergencyType)
    case None => Threw(Invalid("SOS", "emergencyType", "`" + emergencyType + "` is not a valid enum value for path `emergencyType`."))
    case Some(t) => Done(Sos(userId, location, t, description, contacts, status, liveLocationLink, None, None))
  }
}
