/** controllers/departmentHeadController.js: a department head lists the
    students of the department and the posts awaiting review, reviews a
    post once, lists the selected applications awaiting an official
    document, and issues that document, which starts the training. */
module DepartmentHeads {
  import opened Schema
  import opened EntityStore

  /** The students of the caller's department. */
  function GetDepartmentStudents(db: Db, caller: Caller): (r: Result<set<Id>>)
    requires Valid(db)
    ensures r.Err? <==> HeadProfile(db.heads, caller).Err?
    ensures r.Err? ==> r.error == HeadProfile(db.heads, caller).error
    ensures r.Ok? ==> var dept := db.heads[HeadProfile(db.heads, caller).value].department;
      forall s :: s in r.value <==> s in db.students && db.students[s].department == dept
  {
    match HeadProfile(db.heads, caller)
    case Err(e) => Err(e)
    case Ok(h) =>
      var dept := db.heads[h].department;
      Ok(set s | s in db.students && db.students[s].department == dept)
  }

  /** Every post still awaiting review, whatever its department or deadline. */
  function GetPendingTrainingPosts(db: Db, caller: Caller): (r: Result<set<Id>>)
    requires Valid(db)
    ensures r.Err? <==> HeadProfile(db.heads, caller).Err?
    ensures r.Err? ==> r.error == HeadProfile(db.heads, caller).error
    ensures r.Ok? ==> forall p :: p in r.value <==> p in db.posts && db.posts[p].status == Pending
  {
    match HeadProfile(db.heads, caller)
    case Err(e) => Err(e)
    case Ok(_) => Ok(set p | p in db.posts && db.posts[p].status == Pending)
  }

  /** The review of a post: the decision is checked before the role; the post
      must still be PENDING; any head may review any company's post. */
  function ReviewTrainingPost(db: Db, caller: Caller, id: Id, status: string, now: Time): (r: Outcome<TrainingPost>)
    requires Valid(db)
    ensures Valid(r.db)
    ensures r.result.Err? ==> r.db == db
    ensures !IsDecision(status) ==> r.result == Err(BadRequest)
    ensures IsDecision(status) && HeadProfile(db.heads, caller).Err? ==> r.result == Err(HeadProfile(db.heads, caller).error)
    ensures IsDecision(status) && HeadProfile(db.heads, caller).Ok? && id !in db.posts ==> r.result == Err(NotFound)
    ensures IsDecision(status) && HeadProfile(db.heads, caller).Ok? && id in db.posts && db.posts[id].status != Pending
            ==> r.result == Err(BadRequest)
    ensures r.result.Ok? <==>
      IsDecision(status) && HeadProfile(db.heads, caller).Ok? && id in db.posts && db.posts[id].status == Pending
    ensures r.result.Ok? ==>
      var post := r.result.value;
      && r.db == db.(posts := db.posts[id := post])
      && PostStatusName(post.status) == status && post.status != Pending
      && post.approvedBy == Some(HeadProfile(db.heads, caller).value) && post.approvedAt == Some(now)
      && post.(status := Pending, approvedBy := None, approvedAt := None) == db.posts[id]
  {
    if !IsDecision(status) then Outcome(db, Err(BadRequest))
    else match HeadProfile(db.heads, caller)
      case Err(e) => Outcome(db, Err(e))
      case Ok(h) =>
        if id !in db.posts then Outcome(db, Err(NotFound))
        else if db.posts[id].status != Pending then Outcome(db, Err(BadRequest))
        else
          var post := db.posts[id].(status := DecidedPostStatus(status), approvedBy := Some(h), approvedAt := Some(now));
          assert ReviewRecorded(db.posts[id]);
          ReplacePostKeepsValid(db, id, post);
          Outcome(db.(posts := db.posts[id := post]), Ok(post))
  }

  /** The selected applications without an official document whose students
      are in the caller's department and waiting for approval. */
  function GetPendingApplications(db: Db, caller: Caller): (r: Result<set<Id>>)
    requires Valid(db)
    ensures r.Err? <==> HeadProfile(db.heads, caller).Err?
    ensures r.Err? ==> r.error == HeadProfile(db.heads, caller).error
    ensures r.Ok? ==> var dept := db.heads[HeadProfile(db.heads, caller).value].department;
      forall a :: a in r.value <==>
        && a in db.applications
        && db.applications[a].selectedByStudent && db.applications[a].officialDocument.None?
        && db.students[db.applications[a].student].department == dept
        && db.students[db.applications[a].student].trainingStatus == WaitingForApproval
  {
    match HeadProfile(db.heads, caller)
    case Err(e) => Err(e)
    case Ok(h) =>
      var dept := db.heads[h].department;
      var waiting := set s | s in db.students && db.students[s].department == dept
                                             && db.students[s].trainingStatus == WaitingForApproval;
      Ok(set a | a in db.applications && db.applications[a].student in waiting
                 && db.applications[a].selectedByStudent && db.applications[a].officialDocument.None?)
  }

  /** The checks before an official document is issued, in the controller's
      order: content, role, head profile, application, department, status. */
  function OfficialDocumentCheck(db: Db, caller: Caller, appId: Id, content: Option<string>): (r: Result<Id>)
    requires Valid(db)
    ensures !Provided(content) ==> r == Err(BadRequest)
    ensures Provided(content) && HeadProfile(db.heads, caller).Err? ==> r == Err(HeadProfile(db.heads, caller).error)
    ensures Provided(content) && HeadProfile(db.heads, caller).Ok? && appId !in db.applications ==> r == Err(NotFound)
    ensures r.Ok? <==>
      && Provided(content) && HeadProfile(db.heads, caller).Ok? && appId in db.applications
      && db.students[db.applications[appId].student].department == db.heads[HeadProfile(db.heads, caller).value].department
      && db.students[db.applications[appId].student].trainingStatus == WaitingForApproval
    ensures r.Ok? ==> r.value == HeadProfile(db.heads, caller).value
    ensures r.Err? && Provided(content) && HeadProfile(db.heads, caller).Ok? && appId in db.applications ==>
      (r.error == Forbidden <==>
         db.students[db.applications[appId].student].department != db.heads[HeadProfile(db.heads, caller).value].department)
      && r.error in {Forbidden, BadRequest}
  {
    if !Provided(content) then Err(BadRequest)
    else match HeadProfile(db.heads, caller)
      case Err(e) => Err(e)
      case Ok(h) =>
        if appId !in db.applications then Err(NotFound)
        else
          var student := db.students[db.applications[appId].student];
          if student.department != db.heads[h].department then Err(Forbidden)
          else if student.trainingStatus != WaitingForApproval then Err(BadRequest)
          else Ok(h)
  }

  /** Issues the official document (an opaque generated `path`) and moves the
      application's student to IN_TRAINING. Neither the selection flag nor an
      earlier document is checked. */
  function SubmitOfficialDocument(db: Db, caller: Caller, appId: Id, content: Option<string>, path: Handle,
                                  now: Time): (r: Outcome<Application>)
    requires Valid(db)
    ensures Valid(r.db)
    ensures r.result.Err? ==> r.db == db && OfficialDocumentCheck(db, caller, appId, content).Err?
                              && r.result.error == OfficialDocumentCheck(db, caller, appId, content).error
    ensures r.result.Ok? <==> OfficialDocumentCheck(db, caller, appId, content).Ok?
    ensures r.result.Ok? ==>
      var app := r.result.value;
      var s := db.applications[appId].student;
      && app.officialDocument == Some(path) && app.updatedAt == Some(now)
      && app.(officialDocument := db.applications[appId].officialDocument,
              updatedAt := db.applications[appId].updatedAt) == db.applications[appId]
      && r.db == db.(applications := db.applications[appId := app],
                     students := db.students[s := db.students[s].(trainingStatus := InTraining)])
  {
    match OfficialDocumentCheck(db, caller, appId, content)
    case Err(e) => Outcome(db, Err(e))
    case Ok(_) =>
      var app := db.applications[appId].(officialDocument := Some(path), updatedAt := Some(now));
      var s := app.student;
      ReplaceApplicationKeepsValid(db, appId, app);
      var db1 := db.(applications := db.applications[appId := app]);
      SetTrainingStatusKeepsValid(db1, s, InTraining);
      Outcome(db1.(students := db1.students[s := db1.students[s].(trainingStatus := InTraining)]), Ok(app))
  }
}
