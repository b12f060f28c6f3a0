/** controllers/companyController.js: a company edits its profile, lists its
    posts and the applications to them, decides applications, and attaches
    approval files and activity reports to approved applications.

    The controller uses `Student` at lines 238 and 289 without importing it
    (lines 1-7), so both statements throw a ReferenceError when reached.
    `SubmitApprovalFiles` and `SubmitActivityReport` model the evident intent
    (the model is in scope); `SubmitApprovalFilesAsWritten` and
    `SubmitActivityReportAsWritten` model the code as it stands. */
module Companies {
  import opened Schema
  import opened EntityStore

  /** The request body of a profile update; a falsy field is ignored. */
  datatype ProfilePatch = ProfilePatch(name: Option<string>, phone: Option<int>, location: Option<string>,
                                       fieldOfWork: Option<string>)

  /** The profile after an update: each provided field replaces the stored one. */
  function PatchedProfile(c: Company, patch: ProfilePatch): (r: Company)
    ensures r.user == c.user
    ensures r.name == (if Provided(patch.name) then patch.name.value else c.name)
    ensures r.phone == (if ProvidedNumber(patch.phone) then patch.phone.value else c.phone)
    ensures r.location == (if Provided(patch.location) then patch.location.value else c.location)
    ensures r.fieldOfWork == (if Provided(patch.fieldOfWork) then patch.fieldOfWork.value else c.fieldOfWork)
  {
    c.(name := if Provided(patch.name) then patch.name.value else c.name,
       phone := if ProvidedNumber(patch.phone) then patch.phone.value else c.phone,
       location := if Provided(patch.location) then patch.location.value else c.location,
       fieldOfWork := if Provided(patch.fieldOfWork) then patch.fieldOfWork.value else c.fieldOfWork)
  }

  /** Updates the caller's own profile; nothing else changes. */
  function UpdateProfile(db: Db, caller: Caller, patch: ProfilePatch): (r: Outcome<Company>)
    requires Valid(db)
    ensures Valid(r.db)
    ensures r.result.Err? <==> CompanyProfile(db.companies, caller).Err?
    ensures r.result.Err? ==> r.db == db && r.result.error == CompanyProfile(db.companies, caller).error
    ensures r.result.Ok? ==>
      var c := CompanyProfile(db.companies, caller).value;
      && r.result.value == PatchedProfile(db.companies[c], patch)
      && r.db == db.(companies := db.companies[c := r.result.value])
  {
    match CompanyProfile(db.companies, caller)
    case Err(e) => Outcome(db, Err(e))
    case Ok(c) =>
      var updated := PatchedProfile(db.companies[c], patch);
      ReplaceCompanyKeepsValid(db, c, updated);
      Outcome(db.(companies := db.companies[c := updated]), Ok(updated))
  }

  /** The caller's own posts, whatever their status. */
  function GetCompanyPosts(db: Db, caller: Caller): (r: Result<set<Id>>)
    requires Valid(db)
    ensures r.Err? <==> CompanyProfile(db.companies, caller).Err?
    ensures r.Err? ==> r.error == CompanyProfile(db.companies, caller).error
    ensures r.Ok? ==> forall p :: p in r.value <==> p in db.posts && db.posts[p].company == CompanyProfile(db.companies, caller).value
  {
    match CompanyProfile(db.companies, caller)
    case Err(e) => Err(e)
    case Ok(c) => Ok(set p | p in db.posts && db.posts[p].company == c)
  }

  /** The applications to any of the caller's posts. */
  function GetCompanyApplications(db: Db, caller: Caller): (r: Result<set<Id>>)
    requires Valid(db)
    ensures r.Err? <==> CompanyProfile(db.companies, caller).Err?
    ensures r.Err? ==> r.error == CompanyProfile(db.companies, caller).error
    ensures r.Ok? ==> forall a :: a in r.value <==>
      a in db.applications && db.posts[db.applications[a].trainingPost].company == CompanyProfile(db.companies, caller).value
  {
    match CompanyProfile(db.companies, caller)
    case Err(e) => Err(e)
    case Ok(c) =>
      var own := set p | p in db.posts && db.posts[p].company == c;
      Ok(set a | a in db.applications && db.applications[a].trainingPost in own)
  }

  /** The checks a company action on one application starts with: role,
      profile, application exists, its post belongs to the caller. */
  function OwnedApplication(db: Db, caller: Caller, appId: Id): (r: Result<Id>)
    requires Valid(db)
    ensures CompanyProfile(db.companies, caller).Err? ==> r == Err(CompanyProfile(db.companies, caller).error)
    ensures CompanyProfile(db.companies, caller).Ok? && appId !in db.applications ==> r == Err(NotFound)
    ensures r.Ok? <==>
      CompanyProfile(db.companies, caller).Ok? && appId in db.applications
      && db.posts[db.applications[appId].trainingPost].company == CompanyProfile(db.companies, caller).value
    ensures r.Ok? ==> r.value == CompanyProfile(db.companies, caller).value
    ensures (r.Err? && CompanyProfile(db.companies, caller).Ok? && appId in db.applications) ==> r.error == Forbidden
  {
    match CompanyProfile(db.companies, caller)
    case Err(e) => Err(e)
    case Ok(c) =>
      if appId !in db.applications then Err(NotFound)
      else if db.posts[db.applications[appId].trainingPost].company != c then Err(Forbidden)
      else Ok(c)
  }

  /** The company's decision on an application. The decision is checked
      before the role, and the previous status is never looked at: a decided
      (even a selected) application can be decided again. */
  function UpdateApplicationStatus(db: Db, caller: Caller, appId: Id, status: string, now: Time)
    : (r: Outcome<Application>)
    requires Valid(db)
    ensures Valid(r.db)
    ensures r.result.Err? ==> r.db == db
    ensures !IsDecision(status) ==> r.result == Err(BadRequest)
    ensures IsDecision(status) && OwnedApplication(db, caller, appId).Err?
            ==> r.result == Err(OwnedApplication(db, caller, appId).error)
    ensures r.result.Ok? <==> IsDecision(status) && OwnedApplication(db, caller, appId).Ok?
    ensures r.result.Ok? ==>
      var app := r.result.value;
      && AppStatusName(app.status) == status && app.updatedAt == Some(now)
      && app.(status := db.applications[appId].status, updatedAt := db.applications[appId].updatedAt)
         == db.applications[appId]
      && r.db == db.(applications := db.applications[appId := app])
  {
    if !IsDecision(status) then Outcome(db, Err(BadRequest))
    else match OwnedApplication(db, caller, appId)
      case Err(e) => Outcome(db, Err(e))
      case Ok(_) =>
        var app := db.applications[appId].(status := DecidedAppStatus(status), updatedAt := Some(now));
        ReplaceApplicationKeepsValid(db, appId, app);
        Outcome(db.(applications := db.applications[appId := app]), Ok(app))
  }

  /** The checks before an approval file: content, ownership, application approved. */
  function ApprovalFileCheck(db: Db, caller: Caller, appId: Id, content: Option<string>): (r: Result<Id>)
    requires Valid(db)
    ensures !Provided(content) ==> r == Err(BadRequest)
    ensures Provided(content) && OwnedApplication(db, caller, appId).Err?
            ==> r == Err(OwnedApplication(db, caller, appId).error)
    ensures r.Ok? <==>
      Provided(content) && OwnedApplication(db, caller, appId).Ok?
      && db.applications[appId].status == AppStatus.Approved
    ensures (r.Err? && Provided(content) && OwnedApplication(db, caller, appId).Ok?) ==> r.error == BadRequest
  {
    if !Provided(content) then Err(BadRequest)
    else match OwnedApplication(db, caller, appId)
      case Err(e) => Err(e)
      case Ok(c) =>
        if db.applications[appId].status != AppStatus.Approved then Err(BadRequest)
        else Ok(c)
  }

  /** Appends one approval file (an opaque generated `path`). The first file
      moves the application's student to WAITING_FOR_APPROVAL, whatever the
      student's status was; later files leave the student alone. */
  function SubmitApprovalFiles(db: Db, caller: Caller, appId: Id, content: Option<string>, path: Handle, now: Time)
    : (r: Outcome<Application>)
    requires Valid(db)
    ensures Valid(r.db)
    ensures r.result.Err? ==> r.db == db && ApprovalFileCheck(db, caller, appId, content).Err?
                              && r.result.error == ApprovalFileCheck(db, caller, appId, content).error
    ensures r.result.Ok? <==> ApprovalFileCheck(db, caller, appId, content).Ok?
    ensures r.result.Ok? ==>
      var old_app := db.applications[appId];
      var app := r.result.value;
      var s := old_app.student;
      && app.approvalFiles == old_app.approvalFiles + [path] && app.updatedAt == Some(now)
      && app.(approvalFiles := old_app.approvalFiles, updatedAt := old_app.updatedAt) == old_app
      && r.db.applications == db.applications[appId := app]
      && r.db.students == (if old_app.approvalFiles == [] then db.students[s := db.students[s].(trainingStatus := WaitingForApproval)]
                           else db.students)
      && r.db == db.(applications := r.db.applications, students := r.db.students)
  {
    match ApprovalFileCheck(db, caller, appId, content)
    case Err(e) => Outcome(db, Err(e))
    case Ok(_) =>
      var app := db.applications[appId].(approvalFiles := db.applications[appId].approvalFiles + [path],
                                         updatedAt := Some(now));
      ReplaceApplicationKeepsValid(db, appId, app);
      var db1 := db.(applications := db.applications[appId := app]);
      if |app.approvalFiles| == 1 then
        var s := app.student;
        SetTrainingStatusKeepsValid(db1, s, WaitingForApproval);
        Outcome(db1.(students := db1.students[s := db1.students[s].(trainingStatus := WaitingForApproval)]), Ok(app))
      else
        Outcome(db1, Ok(app))
  }

  /** `submitApprovalFiles` as written: the file is saved, then the first
      file reaches the unbound `Student` and the request fails, leaving the
      file stored and the student's status unchanged. */
  function SubmitApprovalFilesAsWritten(db: Db, caller: Caller, appId: Id, content: Option<string>, path: Handle,
                                        now: Time): (r: Outcome<Application>)
    requires Valid(db)
    ensures Valid(r.db)
    ensures r.db.students == db.students
    ensures r.result.Ok? ==> r.result == SubmitApprovalFiles(db, caller, appId, content, path, now).result
    ensures r.db.applications == SubmitApprovalFiles(db, caller, appId, content, path, now).db.applications
  {
    match ApprovalFileCheck(db, caller, appId, content)
    case Err(e) => Outcome(db, Err(e))
    case Ok(_) =>
      var app := db.applications[appId].(approvalFiles := db.applications[appId].approvalFiles + [path],
                                         updatedAt := Some(now));
      ReplaceApplicationKeepsValid(db, appId, app);
      var db1 := db.(applications := db.applications[appId := app]);
      if |app.approvalFiles| == 1 then Outcome(db1, Err(RuntimeFault))
      else Outcome(db1, Ok(app))
  }

  /** The checks before an activity report: content, ownership, the
      application's student in training. */
  function ActivityReportCheck(db: Db, caller: Caller, appId: Id, content: Option<string>): (r: Result<Id>)
    requires Valid(db)
    ensures !Provided(content) ==> r == Err(BadRequest)
    ensures Provided(content) && OwnedApplication(db, caller, appId).Err?
            ==> r == Err(OwnedApplication(db, caller, appId).error)
    ensures r.Ok? <==>
      Provided(content) && OwnedApplication(db, caller, appId).Ok?
      && db.students[db.applications[appId].student].trainingStatus == InTraining
    ensures (r.Err? && Provided(content) && OwnedApplication(db, caller, appId).Ok?) ==> r.error == BadRequest
  {
    if !Provided(content) then Err(BadRequest)
    else match OwnedApplication(db, caller, appId)
      case Err(e) => Err(e)
      case Ok(c) =>
        if db.students[db.applications[appId].student].trainingStatus != InTraining then Err(BadRequest)
        else Ok(c)
  }

  /** Appends one activity report (an opaque generated `path`); no status changes. */
  function SubmitActivityReport(db: Db, caller: Caller, appId: Id, content: Option<string>, path: Handle, now: Time)
    : (r: Outcome<Application>)
    requires Valid(db)
    ensures Valid(r.db)
    ensures r.result.Err? ==> r.db == db && ActivityReportCheck(db, caller, appId, content).Err?
                              && r.result.error == ActivityReportCheck(db, caller, appId, content).error
    ensures r.result.Ok? <==> ActivityReportCheck(db, caller, appId, content).Ok?
    ensures r.result.Ok? ==>
      var old_app := db.applications[appId];
      var app := r.result.value;
      && app.activityReports == old_app.activityReports + [path] && app.updatedAt == Some(now)
      && app.(activityReports := old_app.activityReports, updatedAt := old_app.updatedAt) == old_app
      && r.db == db.(applications := db.applications[appId := app])
  {
    match ActivityReportCheck(db, caller, appId, content)
    case Err(e) => Outcome(db, Err(e))
    case Ok(_) =>
      var app := db.applications[appId].(activityReports := db.applications[appId].activityReports + [path],
                                         updatedAt := Some(now));
      ReplaceApplicationKeepsValid(db, appId, app);
      Outcome(db.(applications := db.applications[appId := app]), Ok(app))
  }

  /** `submitActivityReport` as written: once the ownership check passes, the
      unbound `Student` throws before anything is stored, so it never succeeds. */
  function SubmitActivityReportAsWritten(db: Db, caller: Caller, appId: Id, content: Option<string>, path: Handle,
                                         now: Time): (r: Outcome<Application>)
    requires Valid(db)
    ensures r.db == db
    ensures r.result.Err?
    ensures !Provided(content) ==> r.result == Err(BadRequest)
    ensures Provided(content) && OwnedApplication(db, caller, appId).Err?
            ==> r.result == Err(OwnedApplication(db, caller, appId).error)
    ensures Provided(content) && OwnedApplication(db, caller, appId).Ok? ==> r.result == Err(RuntimeFault)
  {
    if !Provided(content) then Outcome(db, Err(BadRequest))
    else match OwnedApplication(db, caller, appId)
      case Err(e) => Outcome(db, Err(e))
      case Ok(_) => Outcome(db, Err(RuntimeFault))
  }
}
