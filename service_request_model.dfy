/** The ServiceRequest schema (`models/ServiceRequest.js`): a user's call for
    help, with its issue type, status and priority enums. */
module ServiceRequestModel {
  import opened Wrappers
  import opened Response
  import opened Docs

  datatype IssueType = Breakdown | Accident | Maintenance | Repair | Emergency

  function IssueTypeName(t: IssueType): string {
    match t
    case Breakdown => "breakdown"
    case Accident => "accident"
    case Maintenance => "maintenance"
    case Repair => "repair"
    case Emergency => "emergency"
  }

  function ParseIssueType(s: string): (r: Option<IssueType>)
    ensures forall k: IssueType :: r == Some(k) <==> IssueTypeName(k) == s
  {
    if s == "breakdown" then Some(Breakdown)
    else if s == "accident" then Some(Accident)
    else if s == "maintenance" then Some(Maintenance)
    else if s == "repair" then Some(Repair)
    else if s == "emergency" then Some(Emergency)
    else None
  }

  datatype RequestStatus = Pending | Accepted | OnTheWay | InProgress | Completed | Cancelled

  function RequestStatusName(s: RequestStatus): string {
    match s
    case Pending => "pending"
    case Accepted => "accepted"
    case OnTheWay => "on-the-way"
    case InProgress => "in-progress"
    case Completed => "completed"
    case Cancelled => "cancelled"
  }

  function ParseRequestStatus(s: string): (r: Option<RequestStatus>)
    ensures forall k: RequestStatus :: r == Some(k) <==> RequestStatusName(k) == s
  {
    if s == "pending" then Some(Pending)
    else if s == "accepted" then Some(Accepted)
    else if s == "on-the-way" then Some(OnTheWay)
    else if s == "in-progress" then Some(InProgress)
    else if s == "completed" then Some(Completed)
    else if s == "cancelled" then Some(Cancelled)
    else None
  }

  datatype Priority = Low | Medium | High | Critical

  function PriorityName(p: Priority): string {
    match p
    case Low => "low"
    case Medium => "medium"
    case High => "high"
    case Critical => "critical"
  }

  function ParsePriority(s: string): (r: Option<Priority>)
    ensures forall k: Priority :: r == Some(k) <==> PriorityName(k) == s
  {
    if s == "low" then Some(Low)
    else if s == "medium" then Some(Medium)
    else if s == "high" then Some(High)
    else if s == "critical" then Some(Critical)
    else None
  }

  /** A stored service request. `mechanicId` is set once a mechanic takes it. */
  datatype ServiceRequest = ServiceRequest(
    userId: Id,
    mechanicId: Option<Id>,
    title: string,
    description: string,
    issueType: IssueType,
    location: GeoPoint,
    status: RequestStatus,
    priority: Priority,
    acceptedAt: Option<int>,
    completedAt: Option<int>)

  /** What `ServiceRequest.create` stores, or the validator that rejects it:
      the issue type and the priority must be enum values. */
  function NewServiceRequest(userId: Id, title: string, description: string, issueType: string,
                             location: GeoPoint, priority: string, status: RequestStatus): (r: Outcome<ServiceRequest>)
    ensures r.Done? <==> && title != "" && description != ""
                         && ParseIssueType(issueType).Some? && ParsePriority(priority).Some?
    ensures r.Done? ==> var q := r.value;
      && q.userId == userId && q.title == title && q.description == description
      && IssueTypeName(q.issueType) == issueType && PriorityName(q.priority) == priority
      && q.location == location && q.status == status
      && q.mechanicId.None? && q.acceptedAt.None? && q.completedAt.None?
  {
    if title == "" then Threw(Invalid("ServiceRequest", "title", "Please provide service title"))
    else if description == "" then Threw(Invalid("ServiceRequest", "description", "Please provide service description"))
    else match ParseIssueType(issueType)
      case None => Threw(Invalid("ServiceRequest", "issueType", "`" + issueType + "` is not a valid enum value for path `issueType`."))
      case Some(t) =>
        match ParsePriority(priority)
        case None => Threw(Invalid("ServiceRequest", "priority", "`" + priority + "` is not a valid enum value for path `priority`."))
        case Some(p) => Done(ServiceRequest(userId, None, title, description, t, location, status, p, None, None))
  }
}
