/** The record kinds of the store (models/Student.js, models/DepartmentHead.js,
    models/TrainingPost.js, models/Application.js and the profile fields of
    a company), their enumerations and defaults, and the per-document
    validators the schemas declare. Uniqueness indexes are facts about a
    whole collection and live with the store (EntityStore). */
module Schema {
  import opened Text

  /** Record identifiers (`_id`, user ids) are opaque; any fresh value will do. */
  type Id = nat
  /** A point in time in milliseconds, as `Date.now()` gives it. */
  type Time = int
  /** A stored file path or CV path; the core never looks inside it. */
  type Handle = string

  datatype Option<T> = None | Some(value: T)

  /** How a request ends when it does not succeed. The first three are the
      `ApiError`s the controllers raise (400, 403, 404). The last three are
      exceptions passed on to the error-handling middleware: a failed schema
      validator, a unique-index violation, and a JavaScript runtime fault. */
  datatype Error = BadRequest | Forbidden | NotFound | ValidationFailed | DuplicateKey | RuntimeFault

  datatype Result<T> = Ok(value: T) | Err(error: Error)

  /** JavaScript truthiness of an optional string request field. */
  predicate Provided(s: Option<string>)
  {
    s.Some? && s.value != ""
  }

  /** JavaScript truthiness of an optional numeric request field. */
  predicate ProvidedNumber(n: Option<int>)
  {
    n.Some? && n.value != 0
  }

  datatype Department = SW | CIS | BIT | AI | CS | CYBER

  function DepartmentName(d: Department): string
  {
    match d
    case SW => "SW"
    case CIS => "CIS"
    case BIT => "BIT"
    case AI => "AI"
    case CS => "CS"
    case CYBER => "CYBER"
  }

  /** The `enum` validator of a department path: only the six names are accepted. */
  function ParseDepartment(s: string): (d: Option<Department>)
    ensures d.Some? ==> DepartmentName(d.value) == s
    ensures d.None? ==> forall e: Department :: DepartmentName(e) != s
  {
    if s == "SW" then Some(SW)
    else if s == "CIS" then Some(CIS)
    else if s == "BIT" then Some(BIT)
    else if s == "AI" then Some(AI)
    else if s == "CS" then Some(CS)
    else if s == "CYBER" then Some(CYBER)
    else None
  }

  datatype TrainingStatus = NotStarted | WaitingForApproval | InTraining | Completed

  datatype PostStatus = Pending | Approved | Rejected

  function PostStatusName(s: PostStatus): string
  {
    match s
    case Pending => "PENDING"
    case Approved => "APPROVED"
    case Rejected => "REJECTED"
  }

  datatype AppStatus = UnderReview | Approved | Rejected

  function AppStatusName(s: AppStatus): string
  {
    match s
    case UnderReview => "UNDER_REVIEW"
    case Approved => "APPROVED"
    case Rejected => "REJECTED"
  }

  /** The two decisions a reviewer may send, compared as exact strings. */
  predicate IsDecision(s: string)
  {
    s == "APPROVED" || s == "REJECTED"
  }

  function DecidedPostStatus(s: string): (st: PostStatus)
    requires IsDecision(s)
    ensures st != Pending && PostStatusName(st) == s
  {
    if s == "APPROVED" then PostStatus.Approved else PostStatus.Rejected
  }

  function DecidedAppStatus(s: string): (st: AppStatus)
    requires IsDecision(s)
    ensures st != UnderReview && AppStatusName(st) == s
  {
    if s == "APPROVED" then AppStatus.Approved else AppStatus.Rejected
  }

  /** The company profile fields the workflow reads or updates. */
  datatype Company = Company(user: Id, name: string, phone: int, location: string, fieldOfWork: string)

  datatype Student = Student(
    user: Id,
    universityId: int,
    name: string,
    department: Department,
    completedHours: int,
    trainingStatus: TrainingStatus)

  datatype DepartmentHead = DepartmentHead(user: Id, name: string, department: Department)

  datatype TrainingPost = TrainingPost(
    company: Id,
    title: string,
    duration: int,
    location: string,
    availableUntil: Time,
    status: PostStatus,
    approvedBy: Option<Id>,
    approvedAt: Option<Time>,
    description: Option<string>,
    createdAt: Time,
    updatedAt: Option<Time>)

  datatype Application = Application(
    student: Id,
    trainingPost: Id,
    cv: Handle,
    status: AppStatus,
    selectedByStudent: bool,
    officialDocument: Option<Handle>,
    approvalFiles: seq<Handle>,
    activityReports: seq<Handle>,
    finalReport: Option<Handle>,
    createdAt: Time,
    updatedAt: Option<Time>)

  /** The university-id validator: the Number's decimal text matches `^\d{7}$`. */
  predicate ValidUniversityId(v: int)
  {
    SevenDigits(NumberString(v))
  }

  /** Required strings, the 7-digit id (stated as a range, see
      `UniversityIdRange`) and `completedHours >= 0`. */
  predicate StudentConforms(s: Student)
  {
    1000000 <= s.universityId <= 9999999 && s.name != "" && s.completedHours >= 0
  }

  predicate HeadConforms(h: DepartmentHead)
  {
    h.name != ""
  }

  predicate AllowedDuration(d: int)
  {
    d == 6 || d == 8
  }

  /** Duration enum, required (trimmed) title, required location, trimmed description. */
  predicate PostConforms(p: TrainingPost)
  {
    && AllowedDuration(p.duration)
    && p.title != "" && Trimmed(p.title)
    && p.location != ""
    && (p.description.Some? ==> Trimmed(p.description.value))
  }

  /** A post carries a reviewer and a review time exactly when it has left PENDING:
      the schema starts both empty and only a review sets them, with the status. */
  predicate ReviewRecorded(p: TrainingPost)
  {
    p.status == Pending <==> p.approvedBy.None? && p.approvedAt.None?
  }

  predicate ApplicationConforms(a: Application)
  {
    a.cv != ""
  }

  function TrimOption(s: Option<string>): Option<string>
  {
    if s.Some? then Some(Trim(s.value)) else None
  }

  /** A new application with the schema's defaults: under review, not
      selected, no documents and empty file lists. */
  function NewApplication(student: Id, post: Id, cv: Handle, now: Time): (r: Application)
    ensures ApplicationConforms(r) <==> cv != ""
    ensures r.student == student && r.trainingPost == post && r.cv == cv && r.createdAt == now
    ensures r.status == UnderReview && !r.selectedByStudent
    ensures r.officialDocument.None? && r.approvalFiles == [] && r.activityReports == [] && r.finalReport.None?
  {
    Application(student, post, cv, UnderReview, false, None, [], [], None, now, None)
  }

  /** A new student with the schema's default training status. */
  function NewStudent(user: Id, universityId: int, name: string, department: Department, completedHours: int): Student
  {
    Student(user, universityId, name, department, completedHours, NotStarted)
  }

  /** A new post with the schema's default (pending, not reviewed) state. */
  function NewPost(company: Id, title: string, duration: int, location: string,
                   availableUntil: Time, description: Option<string>, now: Time): (r: TrainingPost)
    ensures PostConforms(r) <==> AllowedDuration(duration) && Trim(title) != "" && location != ""
    ensures r.status == Pending && ReviewRecorded(r)
    ensures r.company == company && r.duration == duration && r.location == location
    ensures r.availableUntil == availableUntil && r.createdAt == now && r.updatedAt.None?
  {
    TrimmedEnds(title);
    TrimmedEnds(if description.Some? then description.value else "");
    TrainingPost(company, Trim(title), duration, location, availableUntil, Pending, None, None,
                 TrimOption(description), now, None)
  }

  /** A university id accepted by the validator is a seven-digit number. */
  lemma UniversityIdRange(v: int)
    ensures ValidUniversityId(v) <==> 1000000 <= v <= 9999999
  {
    if v < 0 {
      assert !IsDigit(NumberString(v)[0]);
    } else {
      assert Pow10(6) == 1000000 && Pow10(7) == 10000000;
      DecimalLength(v, 6);
      DecimalLength(v, 7);
    }
  }

  /** Whatever title and description a caller sends, the stored ones are trimmed. */
  lemma NewPostTrimmed(company: Id, title: string, duration: int, location: string,
                       availableUntil: Time, description: Option<string>, now: Time)
    ensures var p := NewPost(company, title, duration, location, availableUntil, description, now);
      Trimmed(p.title) && (p.description.Some? ==> Trimmed(p.description.value))
  {
    TrimmedEnds(title);
    if description.Some? {
      TrimmedEnds(description.value);
    }
  }
}
