/** The entities of the time-registration application. Timestamps are
    milliseconds since the Unix epoch; optional fields are `Option`s. */
module Types {

  datatype Option<+T> = None | Some(value: T) {
    /** The value, or `default` when absent (a JavaScript default parameter). */
    function GetOr(default: T): T {
      if Some? then value else default
    }
  }

  datatype ApprovalStatus = Pending | Approved | Rejected | SyncFailed

  datatype Role = Employee | Manager

  datatype TodayStatus = CheckedIn | CheckedOut | NotStarted

  /** One shift. The record is open while `checkOutTime` is absent. */
  datatype TimeRecord = TimeRecord(
    id: string,
    userId: string,
    userName: string,
    checkInTime: int,
    checkOutTime: Option<int>,
    location: Option<string>,
    notes: Option<string>,
    approvalStatus: Option<ApprovalStatus>,
    createdAt: int,
    updatedAt: int)
  {
    predicate IsOpen() {
      checkOutTime.None?
    }
  }

  datatype User = User(
    id: string,
    displayName: string,
    email: string,
    department: Option<string>,
    role: Role)

  datatype TeamMemberSummary = TeamMemberSummary(
    user: User,
    todayStatus: TodayStatus,
    todayHours: real,
    weekHours: real,
    currentLocation: Option<string>,
    lastCheckIn: Option<int>)

  datatype CheckInStatus = CheckInStatus(
    isCheckedIn: bool,
    currentRecord: Option<TimeRecord>,
    todayTotalHours: real,
    weekTotalHours: real)

  datatype TeamStatistics = TeamStatistics(
    totalEmployees: nat,
    currentlyCheckedIn: nat,
    todayTotalHours: real,
    weekTotalHours: real,
    averageHoursPerEmployee: real)

  /** `{ success: true, data }` or `{ success: false, errorMessage }`. */
  datatype ServiceResponse<+T> = Ok(data: T) | Err(errorMessage: string)
  {
    predicate Success() {
      Ok?
    }
  }

  function ApprovalStatusName(a: ApprovalStatus): string {
    match a
    case Pending => "pending"
    case Approved => "approved"
    case Rejected => "rejected"
    case SyncFailed => "sync-failed"
  }

  /** Reads an `approvalStatus` string; only the four literals of the union are accepted. */
  function ParseApprovalStatus(s: string): (r: Option<ApprovalStatus>)
    ensures r.Some? <==> s in {"pending", "approved", "rejected", "sync-failed"}
    ensures r.Some? ==> ApprovalStatusName(r.value) == s
    ensures forall a :: ApprovalStatusName(a) == s ==> r == Some(a)
  {
    if s == "pending" then Some(Pending)
    else if s == "approved" then Some(Approved)
    else if s == "rejected" then Some(Rejected)
    else if s == "sync-failed" then Some(SyncFailed)
    else None
  }

  function RoleName(r: Role): string {
    match r
    case Employee => "employee"
    case Manager => "manager"
  }

  function ParseRole(s: string): (r: Option<Role>)
    ensures r.Some? <==> s in {"employee", "manager"}
    ensures r.Some? ==> RoleName(r.value) == s
    ensures forall x :: RoleName(x) == s ==> r == Some(x)
  {
    if s == "employee" then Some(Employee)
    else if s == "manager" then Some(Manager)
    else None
  }

  function TodayStatusName(t: TodayStatus): string {
    match t
    case CheckedIn => "checked-in"
    case CheckedOut => "checked-out"
    case NotStarted => "not-started"
  }

  function ParseTodayStatus(s: string): (r: Option<TodayStatus>)
    ensures r.Some? <==> s in {"checked-in", "checked-out", "not-started"}
    ensures r.Some? ==> TodayStatusName(r.value) == s
    ensures forall t :: TodayStatusName(t) == s ==> r == Some(t)
  {
    if s == "checked-in" then Some(CheckedIn)
    else if s == "checked-out" then Some(CheckedOut)
    else if s == "not-started" then Some(NotStarted)
    else None
  }
}
