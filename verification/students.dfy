/** controllers/studentController.js: a student lists the approved posts
    still open, applies with a CV, lists its applications, selects one
    approved application, and hands in the final report that may complete
    the training. */
module Students {
  import opened Schema
  import opened EntityStore

  /** The least number of completed credit hours that allows applying. */
  const MinCompletedHours := 80

  /** The posts a student is shown: approved and with the deadline strictly ahead. */
  function GetAvailablePosts(db: Db, caller: Caller, now: Time): (r: Result<set<Id>>)
    requires Valid(db)
    ensures r.Err? <==> StudentProfile(db.students, caller).Err?
    ensures r.Err? ==> r.error == StudentProfile(db.students, caller).error
    ensures r.Ok? ==> forall p :: p in r.value <==>
      p in db.posts && db.posts[p].status == PostStatus.Approved && db.posts[p].availableUntil > now
  {
    match StudentProfile(db.students, caller)
    case Err(e) => Err(e)
    case Ok(_) =>
      Ok(set p | p in db.posts && db.posts[p].status == PostStatus.Approved && db.posts[p].availableUntil > now)
  }

  /** The caller's own applications. */
  function GetStudentApplications(db: Db, caller: Caller): (r: Result<set<Id>>)
    requires Valid(db)
    ensures r.Err? <==> StudentProfile(db.students, caller).Err?
    ensures r.Err? ==> r.error == StudentProfile(db.students, caller).error
    ensures r.Ok? ==> forall a :: a in r.value <==>
      a in db.applications && db.applications[a].student == StudentProfile(db.students, caller).value
  {
    match StudentProfile(db.students, caller)
    case Err(e) => Err(e)
    case Ok(s) => Ok(set a | a in db.applications && db.applications[a].student == s)
  }

  /** The availability test `applyForTraining` uses: approved, and the
      deadline not yet passed. A deadline equal to `now` still passes. */
  predicate OpenForApplication(post: TrainingPost, now: Time)
  {
    post.status == PostStatus.Approved && !(post.availableUntil < now)
  }

  /** The student has already applied for the post. */
  predicate HasApplied(apps: map<Id, Application>, student: Id, post: Id)
  {
    exists a :: a in apps && apps[a].student == student && apps[a].trainingPost == post
  }

  /** Every post in a student's listing passes the availability test of
      `applyForTraining`; the converse fails at the deadline itself (see
      `Workflow.ApplyAtDeadline`). */
  lemma AvailablePostsAreOpen(db: Db, caller: Caller, now: Time)
    requires Valid(db) && GetAvailablePosts(db, caller, now).Ok?
    ensures forall p :: p in GetAvailablePosts(db, caller, now).value ==> p in db.posts && OpenForApplication(db.posts[p], now)
  {
  }

  /** An application with the uploaded CV (absent when no file was uploaded).
      Checks, in order: file, role, profile, credit hours, post exists, post
      open, no earlier application for the same post, then the CV validator. */
  function ApplyForTraining(db: Db, caller: Caller, postId: Id, cv: Option<Handle>, now: Time)
    : (r: Outcome<(Id, Application)>)
    requires Valid(db)
    ensures Valid(r.db)
    ensures r.result.Err? ==> r.db == db
    ensures cv.None? ==> r.result == Err(BadRequest)
    ensures cv.Some? && StudentProfile(db.students, caller).Err? ==> r.result == Err(StudentProfile(db.students, caller).error)
    ensures cv.Some? && StudentProfile(db.students, caller).Ok?
            && db.students[StudentProfile(db.students, caller).value].completedHours < MinCompletedHours
            ==> r.result == Err(BadRequest)
    ensures cv.Some? && StudentProfile(db.students, caller).Ok?
            && db.students[StudentProfile(db.students, caller).value].completedHours >= MinCompletedHours
            && postId !in db.posts
            ==> r.result == Err(NotFound)
    ensures cv.Some? && StudentProfile(db.students, caller).Ok?
            && db.students[StudentProfile(db.students, caller).value].completedHours >= MinCompletedHours
            && postId in db.posts && !OpenForApplication(db.posts[postId], now)
            ==> r.result == Err(BadRequest)
    ensures cv.Some? && StudentProfile(db.students, caller).Ok?
            && db.students[StudentProfile(db.students, caller).value].completedHours >= MinCompletedHours
            && postId in db.posts && OpenForApplication(db.posts[postId], now)
            && HasApplied(db.applications, StudentProfile(db.students, caller).value, postId)
            ==> r.result == Err(BadRequest)
    ensures cv.Some? && StudentProfile(db.students, caller).Ok?
            && db.students[StudentProfile(db.students, caller).value].completedHours >= MinCompletedHours
            && postId in db.posts && OpenForApplication(db.posts[postId], now)
            && !HasApplied(db.applications, StudentProfile(db.students, caller).value, postId)
            && cv.value == ""
            ==> r.result == Err(ValidationFailed)
    ensures r.result.Ok? <==>
      && cv.Some? && cv.value != "" && StudentProfile(db.students, caller).Ok?
      && db.students[StudentProfile(db.students, caller).value].completedHours >= MinCompletedHours
      && postId in db.posts && OpenForApplication(db.posts[postId], now)
      && !HasApplied(db.applications, StudentProfile(db.students, caller).value, postId)
    ensures r.result.Ok? ==>
      var (id, app) := r.result.value;
      && id !in db.applications && id == db.nextId
      && r.db == db.(applications := db.applications[id := app], nextId := db.nextId + 1)
      && app.student == StudentProfile(db.students, caller).value && app.trainingPost == postId && app.cv == cv.value
      && app.status == UnderReview && !app.selectedByStudent && app.officialDocument.None?
      && app.approvalFiles == [] && app.activityReports == [] && app.finalReport.None?
  {
    if cv.None? then Outcome(db, Err(BadRequest))
    else match StudentProfile(db.students, caller)
      case Err(e) => Outcome(db, Err(e))
      case Ok(s) =>
        if db.students[s].completedHours < MinCompletedHours then Outcome(db, Err(BadRequest))
        else if postId !in db.posts then Outcome(db, Err(NotFound))
        else if !OpenForApplication(db.posts[postId], now) then Outcome(db, Err(BadRequest))
        else if HasApplied(db.applications, s, postId) then Outcome(db, Err(BadRequest))
        else if cv.value == "" then Outcome(db, Err(ValidationFailed))
        else
          var app := NewApplication(s, postId, cv.value, now);
          InsertApplicationKeepsValid(db, app);
          Outcome(db.(applications := db.applications[db.nextId := app], nextId := db.nextId + 1),
                  Ok((db.nextId, app)))
  }

  /** The checks before a selection: role, profile, application exists and
      belongs to the caller, application approved, no selection yet. */
  function SelectionCheck(db: Db, caller: Caller, appId: Id): (r: Result<Id>)
    requires Valid(db)
    ensures StudentProfile(db.students, caller).Err? ==> r == Err(StudentProfile(db.students, caller).error)
    ensures StudentProfile(db.students, caller).Ok? && appId !in db.applications ==> r == Err(NotFound)
    ensures (StudentProfile(db.students, caller).Ok? && appId in db.applications
             && db.applications[appId].student != StudentProfile(db.students, caller).value) ==> r == Err(Forbidden)
    ensures r.Ok? <==>
      && StudentProfile(db.students, caller).Ok? && appId in db.applications
      && db.applications[appId].student == StudentProfile(db.students, caller).value
      && db.applications[appId].status == AppStatus.Approved
      && SelectedApplicationOf(db.applications, StudentProfile(db.students, caller).value).None?
    ensures r.Ok? ==> r.value == StudentProfile(db.students, caller).value
    ensures (r.Err? && StudentProfile(db.students, caller).Ok? && appId in db.applications
             && db.applications[appId].student == StudentProfile(db.students, caller).value) ==> r.error == BadRequest
  {
    match StudentProfile(db.students, caller)
    case Err(e) => Err(e)
    case Ok(s) =>
      if appId !in db.applications then Err(NotFound)
      else if db.applications[appId].student != s then Err(Forbidden)
      else if db.applications[appId].status != AppStatus.Approved then Err(BadRequest)
      else if SelectedApplicationOf(db.applications, s).Some? then Err(BadRequest)
      else Ok(s)
  }

  /** Marks the application as the student's choice and moves the student to
      WAITING_FOR_APPROVAL; afterwards it is the student's only selection. */
  function SelectApplication(db: Db, caller: Caller, appId: Id, now: Time): (r: Outcome<Application>)
    requires Valid(db)
    ensures Valid(r.db)
    ensures r.result.Err? ==> r.db == db && SelectionCheck(db, caller, appId).Err?
                              && r.result.error == SelectionCheck(db, caller, appId).error
    ensures r.result.Ok? <==> SelectionCheck(db, caller, appId).Ok?
    ensures r.result.Ok? ==>
      var s := StudentProfile(db.students, caller).value;
      var app := r.result.value;
      && app.selectedByStudent && app.updatedAt == Some(now)
      && app.(selectedByStudent := false, updatedAt := db.applications[appId].updatedAt) == db.applications[appId]
      && r.db == db.(applications := db.applications[appId := app],
                     students := db.students[s := db.students[s].(trainingStatus := WaitingForApproval)])
      && SelectedApplicationOf(r.db.applications, s) == Some(appId)
  {
    match SelectionCheck(db, caller, appId)
    case Err(e) => Outcome(db, Err(e))
    case Ok(s) =>
      var app := db.applications[appId].(selectedByStudent := true, updatedAt := Some(now));
      ReplaceApplicationKeepsValid(db, appId, app);
      var db1 := db.(applications := db.applications[appId := app]);
      SetTrainingStatusKeepsValid(db1, s, WaitingForApproval);
      var db2 := db1.(students := db1.students[s := db1.students[s].(trainingStatus := WaitingForApproval)]);
      assert db2.applications[appId].selectedByStudent && db2.applications[appId].student == s;
      Outcome(db2, Ok(app))
  }

  /** The checks before a final report: content, role, profile, the student
      in training, a selected application. */
  function FinalReportCheck(db: Db, caller: Caller, content: Option<string>): (r: Result<(Id, Id)>)
    requires Valid(db)
    ensures !Provided(content) ==> r == Err(BadRequest)
    ensures Provided(content) && StudentProfile(db.students, caller).Err? ==> r == Err(StudentProfile(db.students, caller).error)
    ensures (Provided(content) && StudentProfile(db.students, caller).Ok?
             && db.students[StudentProfile(db.students, caller).value].trainingStatus != InTraining) ==> r == Err(BadRequest)
    ensures r.Ok? <==>
      && Provided(content) && StudentProfile(db.students, caller).Ok?
      && db.students[StudentProfile(db.students, caller).value].trainingStatus == InTraining
      && SelectedApplicationOf(db.applications, StudentProfile(db.students, caller).value).Some?
    ensures r.Ok? ==> r.value == (StudentProfile(db.students, caller).value,
                                  SelectedApplicationOf(db.applications, StudentProfile(db.students, caller).value).value)
    ensures (r.Err? && Provided(content) && StudentProfile(db.students, caller).Ok?
             && db.students[StudentProfile(db.students, caller).value].trainingStatus == InTraining) ==> r.error == NotFound
  {
    if !Provided(content) then Err(BadRequest)
    else match StudentProfile(db.students, caller)
      case Err(e) => Err(e)
      case Ok(s) =>
        if db.students[s].trainingStatus != InTraining then Err(BadRequest)
        else match SelectedApplicationOf(db.applications, s)
          case None => Err(NotFound)
          case Some(a) => Ok((s, a))
  }

  /** Records the final report (an opaque generated `path`) on the selected
      application; the student becomes COMPLETED exactly when that
      application already holds two or more activity reports. */
  function SubmitFinalReport(db: Db, caller: Caller, content: Option<string>, path: Handle, now: Time)
    : (r: Outcome<Application>)
    requires Valid(db)
    ensures Valid(r.db)
    ensures r.result.Err? ==> r.db == db && FinalReportCheck(db, caller, content).Err?
                              && r.result.error == FinalReportCheck(db, caller, content).error
    ensures r.result.Ok? <==> FinalReportCheck(db, caller, content).Ok?
    ensures r.result.Ok? ==>
      var (s, a) := FinalReportCheck(db, caller, content).value;
      var app := r.result.value;
      && app.finalReport == Some(path) && app.updatedAt == Some(now)
      && app.(finalReport := db.applications[a].finalReport, updatedAt := db.applications[a].updatedAt)
         == db.applications[a]
      && r.db.applications == db.applications[a := app]
      && r.db.students.Keys == db.students.Keys
      && (forall t :: t in db.students && t != s ==> r.db.students[t] == db.students[t])
      && r.db.students[s].trainingStatus == (if |app.activityReports| >= 2 then Completed else InTraining)
      && r.db.students[s].(trainingStatus := InTraining) == db.students[s]
      && r.db == db.(applications := r.db.applications, students := r.db.students)
  {
    match FinalReportCheck(db, caller, content)
    case Err(e) => Outcome(db, Err(e))
    case Ok((s, a)) =>
      var app := db.applications[a].(finalReport := Some(path), updatedAt := Some(now));
      ReplaceApplicationKeepsValid(db, a, app);
      var db1 := db.(applications := db.applications[a := app]);
      if |app.activityReports| >= 2 then
        SetTrainingStatusKeepsValid(db1, s, Completed);
        Outcome(db1.(students := db1.students[s := db1.students[s].(trainingStatus := Completed)]), Ok(app))
      else
        Outcome(db1, Ok(app))
  }
}
