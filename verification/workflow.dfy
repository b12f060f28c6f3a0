/** Properties of the placement workflow that relate several requests:
    what a request leaves behind for the next one, how the listings agree,
    where the controllers disagree with each other, and what the unbound
    `Student` in companyController.js costs. */
module Workflow {
  import opened Text
  import opened Schema
  import opened EntityStore
  import opened TrainingPosts
  import opened DepartmentHeads
  import opened Students
  import opened Companies

  /** Training status as a stage number along the intended path. */
  function Stage(s: TrainingStatus): (n: nat)
    ensures n <= 3
    ensures s == NotStarted <==> n == 0
    ensures s == WaitingForApproval <==> n == 1
    ensures s == InTraining <==> n == 2
    ensures s == Completed <==> n == 3
  {
    match s
    case NotStarted => 0
    case WaitingForApproval => 1
    case InTraining => 2
    case Completed => 3
  }

  /** Once reviewed, a post cannot be reviewed again, by any head, with any decision. */
  lemma ReviewAtMostOnce(db: Db, head: Caller, id: Id, status: string, now: Time,
                         head': Caller, status': string, now': Time)
    requires Valid(db) && ReviewTrainingPost(db, head, id, status, now).result.Ok?
    ensures var db' := ReviewTrainingPost(db, head, id, status, now).db;
      && ReviewTrainingPost(db', head', id, status', now').result.Err?
      && ReviewTrainingPost(db', head', id, status', now').db == db'
  {
    var db' := ReviewTrainingPost(db, head, id, status, now).db;
    assert db'.posts[id].status != Pending;
  }

  /** A reviewed post can no longer be edited or withdrawn by its company. */
  lemma ReviewFreezesPost(db: Db, head: Caller, id: Id, status: string, now: Time,
                          company: Caller, patch: PostPatch, now': Time)
    requires Valid(db) && ReviewTrainingPost(db, head, id, status, now).result.Ok?
    ensures var db' := ReviewTrainingPost(db, head, id, status, now).db;
      && UpdatePost(db', company, id, patch, now').result.Err?
      && DeletePost(db', company, id).result.Err?
  {
    var db' := ReviewTrainingPost(db, head, id, status, now).db;
    assert db'.posts[id].status != Pending;
  }

  /** Withdrawing a post just created restores the store, up to the id counter. */
  lemma CreateThenDeleteRestores(db: Db, company: Caller, input: PostInput, now: Time)
    requires Valid(db) && CreateTrainingPost(db, company, input, now).result.Ok?
    ensures var o := CreateTrainingPost(db, company, input, now);
      && DeletePost(o.db, company, o.result.value.0).result.Ok?
      && DeletePost(o.db, company, o.result.value.0).db == db.(nextId := o.db.nextId)
  {
    var o := CreateTrainingPost(db, company, input, now);
    var id := db.nextId;
    var post := CreationCheck(db, company, input, now).value;
    assert o.db == db.(posts := db.posts[id := post], nextId := id + 1);
    assert o.db.companies == db.companies && o.db.posts[id] == post;
    assert Some(post.company) == CompanyOf(o.db.companies, company.user);
    assert company.role == CompanyRole && post.status == Pending && Valid(o.db);
    assert OwnedPendingPost(o.db, company, id).Ok?;
    RemoveInserted(db.posts, id, post);
  }

  lemma RemoveInserted<V>(m: map<Id, V>, k: Id, v: V)
    requires k !in m
    ensures m[k := v] - {k} == m
  {
  }

  lemma UpperApproved()
    ensures ToUpper("approved") == "APPROVED"
  {
    assert ToUpper("approved")[..] == "APPROVED";
  }

  lemma UpperPending()
    ensures ToUpper("Pending") == "PENDING"
  {
    assert ToUpper("Pending")[..] == "PENDING";
  }

  /** The student listing is the public listing filtered by `approved`. */
  lemma AvailableIsApprovedListing(db: Db, student: Caller, now: Time)
    requires Valid(db) && StudentProfile(db.students, student).Ok?
    ensures GetAvailablePosts(db, student, now).value == GetAllPosts(db, Some("approved"), now)
  {
    UpperApproved();
    var avail := GetAvailablePosts(db, student, now).value;
    var all := GetAllPosts(db, Some("approved"), now);
    forall p | p in db.posts
      ensures p in avail <==> p in all
    {
      assert PostStatusName(db.posts[p].status) == "APPROVED" <==> db.posts[p].status == PostStatus.Approved;
    }
  }

  /** The head's pending listing is the public listing filtered by `pending`,
      whatever the deadlines. */
  lemma PendingIsPendingListing(db: Db, head: Caller, now: Time)
    requires Valid(db) && HeadProfile(db.heads, head).Ok?
    ensures GetPendingTrainingPosts(db, head).value == GetAllPosts(db, Some("Pending"), now)
  {
    UpperPending();
    var pending := GetPendingTrainingPosts(db, head).value;
    var all := GetAllPosts(db, Some("Pending"), now);
    forall p | p in db.posts
      ensures p in pending <==> p in all
    {
      assert PostStatusName(db.posts[p].status) == "PENDING" <==> db.posts[p].status == Pending;
    }
  }

  /** A post whose deadline is exactly now is not listed to students, yet an
      application to it is accepted: the listing demands `availableUntil > now`
      while applying only rejects `availableUntil < now`. */
  lemma ApplyAtDeadline(db: Db, student: Caller, postId: Id, cv: Handle, now: Time)
    requires Valid(db) && StudentProfile(db.students, student).Ok?
    requires db.students[StudentProfile(db.students, student).value].completedHours >= MinCompletedHours
    requires postId in db.posts && db.posts[postId].status == PostStatus.Approved
    requires db.posts[postId].availableUntil == now
    requires !HasApplied(db.applications, StudentProfile(db.students, student).value, postId) && cv != ""
    ensures postId !in GetAvailablePosts(db, student, now).value
    ensures ApplyForTraining(db, student, postId, Some(cv), now).result.Ok?
  {
  }

  /** Applying twice for the same post fails the second time with 400,
      whatever file and time come with it, and stores nothing. */
  lemma SecondApplyFails(db: Db, student: Caller, postId: Id, cv: Option<Handle>, now: Time,
                         cv': Option<Handle>, now': Time)
    requires Valid(db) && ApplyForTraining(db, student, postId, cv, now).result.Ok?
    ensures var db' := ApplyForTraining(db, student, postId, cv, now).db;
      && ApplyForTraining(db', student, postId, cv', now').result == Err(BadRequest)
      && ApplyForTraining(db', student, postId, cv', now').db == db'
  {
    var o := ApplyForTraining(db, student, postId, cv, now);
    var db' := o.db;
    var s := StudentProfile(db.students, student).value;
    assert db'.students == db.students;
    assert StudentProfile(db'.students, student) == StudentProfile(db.students, student);
    assert db'.applications[o.result.value.0].student == s;
    assert HasApplied(db'.applications, s, postId);
  }

  /** After a selection, every further selection by the same student fails. */
  lemma SecondSelectFails(db: Db, student: Caller, appId: Id, now: Time, appId': Id, now': Time)
    requires Valid(db) && SelectApplication(db, student, appId, now).result.Ok?
    ensures var db' := SelectApplication(db, student, appId, now).db;
      SelectApplication(db', student, appId', now').result.Err?
  {
    var db' := SelectApplication(db, student, appId, now).db;
    var s := StudentProfile(db.students, student).value;
    assert db'.students[s].user == db.students[s].user;
    StudentUserUnique(db'.students, student.user);
    assert StudentProfile(db'.students, student) == StudentProfile(db.students, student);
  }

  /** The selected applications awaiting a document name each student at most once. */
  lemma PendingApplicationsDistinctStudents(db: Db, head: Caller)
    requires Valid(db) && GetPendingApplications(db, head).Ok?
    ensures var pending := GetPendingApplications(db, head).value;
      forall a, b :: a in pending && b in pending && db.applications[a].student == db.applications[b].student ==> a == b
  {
    var pending := GetPendingApplications(db, head).value;
    forall a, b | a in pending && b in pending && db.applications[a].student == db.applications[b].student
      ensures a == b
    {
      assert BothSelected(db.applications, a, b);
    }
  }

  /** The company's decision is not final: a selected application can still
      be turned to REJECTED, and stays selected. */
  lemma DecisionOverridesSelection(db: Db, company: Caller, appId: Id, now: Time)
    requires Valid(db) && OwnedApplication(db, company, appId).Ok?
    requires db.applications[appId].selectedByStudent
    ensures var o := UpdateApplicationStatus(db, company, appId, "REJECTED", now);
      && o.result.Ok? && o.result.value.status == AppStatus.Rejected && o.result.value.selectedByStudent
  {
  }

  /** The training status does not only move forward: the first approval
      file on any approved application sends its student back to
      WAITING_FOR_APPROVAL, even from IN_TRAINING or COMPLETED. */
  lemma ApprovalFileRegressesTraining(db: Db, company: Caller, appId: Id, content: Option<string>, path: Handle,
                                      now: Time)
    requires Valid(db) && ApprovalFileCheck(db, company, appId, content).Ok?
    requires db.applications[appId].approvalFiles == []
    requires Stage(db.students[db.applications[appId].student].trainingStatus) >= 2
    ensures var s := db.applications[appId].student;
      var o := SubmitApprovalFiles(db, company, appId, content, path, now);
      Stage(o.db.students[s].trainingStatus) < Stage(db.students[s].trainingStatus)
  {
  }

  /** A final report handed in too early does not complete the training later:
      the second activity report changes no status, and only a further final
      report completes it. */
  lemma FinalReportNotRetroactive(db: Db, student: Caller, company: Caller, content: Option<string>,
                                  report: Handle, activity: Handle, report': Handle, now: Time)
    requires Valid(db) && FinalReportCheck(db, student, content).Ok?
    requires var (s, a) := FinalReportCheck(db, student, content).value;
      |db.applications[a].activityReports| == 1 && OwnedApplication(db, company, a).Ok?
    ensures var (s, a) := FinalReportCheck(db, student, content).value;
      var db1 := SubmitFinalReport(db, student, content, report, now).db;
      var db2 := SubmitActivityReport(db1, company, a, content, activity, now).db;
      var db3 := SubmitFinalReport(db2, student, content, report', now).db;
      && db1.students[s].trainingStatus == InTraining
      && db2.students[s].trainingStatus == InTraining
      && |db2.applications[a].activityReports| == 2
      && db3.students[s].trainingStatus == Completed
  {
    var (s, a) := FinalReportCheck(db, student, content).value;
    var o1 := SubmitFinalReport(db, student, content, report, now);
    var db1 := o1.db;
    assert db1.students[s].trainingStatus == InTraining;
    assert db1.students.Keys == db.students.Keys;
    assert db1.students[s].user == db.students[s].user;
    assert StudentProfile(db1.students, student) == StudentProfile(db.students, student);
    assert db1.companies == db.companies && db1.posts == db.posts;
    assert db1.applications[a].trainingPost == db.applications[a].trainingPost;
    assert OwnedApplication(db1, company, a).Ok?;
    assert ActivityReportCheck(db1, company, a, content).Ok?;
    var o2 := SubmitActivityReport(db1, company, a, content, activity, now);
    var db2 := o2.db;
    assert db2.students == db1.students;
    assert db2.applications[a].selectedByStudent;
    SelectionUnique(db2.applications, s);
    assert SelectedApplicationOf(db2.applications, s) == Some(a);
    assert StudentProfile(db2.students, student) == StudentProfile(db.students, student);
    assert FinalReportCheck(db2, student, content).Ok?;
  }

  /** The first approval file fails as written and leaves a half-done
      update: the file is stored, the student's status is not moved, and the
      client sees an error; the intended version succeeds and moves it. */
  lemma FirstApprovalFileFailsAsWritten(db: Db, company: Caller, appId: Id, content: Option<string>,
                                        path: Handle, now: Time)
    requires Valid(db) && ApprovalFileCheck(db, company, appId, content).Ok?
    requires db.applications[appId].approvalFiles == []
    ensures var written := SubmitApprovalFilesAsWritten(db, company, appId, content, path, now);
      var intended := SubmitApprovalFiles(db, company, appId, content, path, now);
      var s := db.applications[appId].student;
      && written.result == Err(RuntimeFault)
      && written.db.applications[appId].approvalFiles == [path]
      && written.db.students[s] == db.students[s]
      && intended.result.Ok?
      && intended.db.students[s].trainingStatus == WaitingForApproval
  {
    var app := db.applications[appId];
    assert app.approvalFiles + [path] == [path];
    var written := SubmitApprovalFilesAsWritten(db, company, appId, content, path, now);
    assert written.db.applications[appId].approvalFiles == [path];
    assert written.result == Err(RuntimeFault);
  }

  /** As written, an activity report is never stored: every request that
      passes the ownership checks fails, including each one the intended
      version accepts. */
  lemma ActivityReportNeverStoredAsWritten(db: Db, company: Caller, appId: Id, content: Option<string>,
                                           path: Handle, now: Time)
    requires Valid(db) && ActivityReportCheck(db, company, appId, content).Ok?
    ensures SubmitActivityReportAsWritten(db, company, appId, content, path, now).result == Err(RuntimeFault)
    ensures SubmitActivityReport(db, company, appId, content, path, now).result.Ok?
    ensures SubmitActivityReport(db, company, appId, content, path, now).db.applications[appId].activityReports
            == db.applications[appId].activityReports + [path]
  {
  }

  // The whole placement, one request at a time: the company, the student
  // and the head register; the company posts and the head approves the
  // post; the student (90 completed hours) applies, the company approves
  // and the student selects; the company sends the approval file and the
  // head issues the official document; the company sends two activity
  // reports and the student's final report completes the training. Each
  // stage of the store is a predicate, and each lemma shows that one request
  // succeeds from its stage and leads to the next, so the stages chain from
  // the empty store to a COMPLETED student.

  const CompanyCaller := Caller(10, CompanyRole)
  const StudentCaller := Caller(11, StudentRole)
  const HeadCaller := Caller(12, HeadRole)

  /** Only the company (id 0) is registered. */
  ghost predicate CompanyOnly(db: Db)
  {
    && Valid(db) && CompanyOf(db.companies, CompanyCaller.user) == Some(0)
    && db.students == map[] && db.heads == map[] && db.posts == map[] && db.applications == map[] && db.nextId == 1
  }

  /** The company and the student (id 1, SW, 90 hours) are registered. */
  ghost predicate CompanyAndStudent(db: Db)
  {
    && Valid(db) && CompanyOf(db.companies, CompanyCaller.user) == Some(0)
    && StudentOf(db.students, StudentCaller.user) == Some(1)
    && db.students[1].department == SW && db.students[1].completedHours == 90
    && db.heads == map[] && db.posts == map[] && db.applications == map[] && db.nextId == 2
  }

  /** The scenario's three profiles (ids 0, 1, 2) are in place, student and head in SW. */
  ghost predicate Parties(db: Db)
  {
    && Valid(db)
    && CompanyOf(db.companies, CompanyCaller.user) == Some(0)
    && StudentOf(db.students, StudentCaller.user) == Some(1)
    && HeadOf(db.heads, HeadCaller.user) == Some(2)
    && db.students[1].department == SW && db.heads[2].department == SW && db.students[1].completedHours == 90
  }

  /** Everyone is registered and nothing is posted yet. */
  ghost predicate Enrolled(db: Db)
  {
    Parties(db) && db.posts == map[] && db.applications == map[] && db.nextId == 3
  }

  /** The company's post (id 3) awaits review. */
  ghost predicate AwaitingReview(db: Db)
  {
    && Parties(db) && 3 in db.posts && db.posts[3].status == Pending && db.posts[3].company == 0
    && db.posts[3].availableUntil == 100 && db.applications == map[] && db.nextId == 4
  }

  /** The post is approved and open until time 100. */
  ghost predicate Advertised(db: Db)
  {
    && Parties(db) && 3 in db.posts && db.posts[3].status == PostStatus.Approved && db.posts[3].company == 0
    && db.posts[3].availableUntil == 100 && db.applications == map[] && db.nextId == 4
  }

  /** The student's only application (id 4) is for the company's post. */
  ghost predicate Placement(db: Db)
  {
    && Parties(db) && 3 in db.posts && db.posts[3].company == 0
    && db.applications.Keys == {4} && db.applications[4].student == 1 && db.applications[4].trainingPost == 3
  }

  /** The application waits for the company's decision. */
  ghost predicate Submitted(db: Db)
  {
    && Placement(db) && db.applications[4].status == UnderReview && !db.applications[4].selectedByStudent
  }

  /** The company approved the application; the student has not chosen yet. */
  ghost predicate Offered(db: Db)
  {
    && Placement(db) && db.applications[4].status == AppStatus.Approved && !db.applications[4].selectedByStudent
    && db.applications[4].approvalFiles == [] && db.applications[4].activityReports == []
  }

  /** The student chose the application and waits for the company's approval file. */
  ghost predicate Chosen(db: Db)
  {
    && Placement(db) && db.applications[4].status == AppStatus.Approved && db.applications[4].selectedByStudent
    && db.applications[4].approvalFiles == [] && db.applications[4].activityReports == []
    && db.students[1].trainingStatus == WaitingForApproval
  }

  /** The approval file is in; the head's official document is due. */
  ghost predicate Endorsed(db: Db)
  {
    && Placement(db) && db.applications[4].selectedByStudent && db.applications[4].activityReports == []
    && db.students[1].trainingStatus == WaitingForApproval
  }

  /** The student is in training and `n` activity reports are in. */
  ghost predicate Training(db: Db, n: nat)
  {
    && Placement(db) && db.applications[4].selectedByStudent && |db.applications[4].activityReports| == n
    && db.students[1].trainingStatus == InTraining
  }

  lemma CompanySignsUp()
    ensures Valid(EmptyDb) && CompanyOnly(RegisterCompany(EmptyDb, CompanyCaller.user, "Acme", 799123456, "Amman", "Software").db)
  {
    EmptyDbValid();
    var db := RegisterCompany(EmptyDb, CompanyCaller.user, "Acme", 799123456, "Amman", "Software").db;
    assert db.companies.Keys == {0};
  }

  lemma StudentSignsUp(db: Db)
    requires CompanyOnly(db)
    ensures var o := RegisterStudent(db, StudentCaller.user, 2137583, "Dema", "SW", 90);
      o.result.Ok? && CompanyAndStudent(o.db)
  {
    assert 1000000 <= 2137583 <= 9999999;
    assert ParseDepartment("SW") == Some(SW);
    var o := RegisterStudent(db, StudentCaller.user, 2137583, "Dema", "SW", 90);
    assert o.db.students == map[1 := o.result.value.1];
  }

  lemma HeadSignsUp(db: Db)
    requires CompanyAndStudent(db)
    ensures var o := RegisterDepartmentHead(db, HeadCaller.user, "Head", "SW");
      o.result.Ok? && Enrolled(o.db)
  {
    assert ParseDepartment("SW") == Some(SW);
    var o := RegisterDepartmentHead(db, HeadCaller.user, "Head", "SW");
    assert o.db.heads == map[2 := o.result.value.1];
  }

  lemma CompanyPosts(db: Db)
    requires Enrolled(db)
    ensures var o := CreateTrainingPost(db, CompanyCaller, PostInput("Backend", 8, "Amman", 100, None), 0);
      o.result.Ok? && o.result.value.0 == 3 && o.result.value.1.title == "Backend" && AwaitingReview(o.db)
  {
    var input := PostInput("Backend", 8, "Amman", 100, None);
    assert Trimmed("Backend");
    TrimFixedPoints("Backend");
    assert !TitleTaken(db.posts, 0, "Backend");
    var post := CreationCheck(db, CompanyCaller, input, 0).value;
    var o := CreateTrainingPost(db, CompanyCaller, input, 0);
    assert o.db == db.(posts := db.posts[3 := post], nextId := 4);
    assert o.db.companies == db.companies && o.db.students == db.students && o.db.heads == db.heads;
  }

  lemma HeadApprovesPost(db: Db)
    requires AwaitingReview(db)
    ensures var o := ReviewTrainingPost(db, HeadCaller, 3, "APPROVED", 1);
      o.result.Ok? && Advertised(o.db)
  {
  }

  lemma StudentApplies(db: Db)
    requires Advertised(db)
    ensures var o := ApplyForTraining(db, StudentCaller, 3, Some("cv.pdf"), 2);
      o.result.Ok? && o.result.value.0 == 4 && Submitted(o.db)
      && o.db.applications[4].approvalFiles == [] && o.db.applications[4].activityReports == []
  {
    assert !HasApplied(db.applications, 1, 3);
  }

  lemma CompanyAccepts(db: Db)
    requires Submitted(db) && db.applications[4].approvalFiles == [] && db.applications[4].activityReports == []
    ensures var o := UpdateApplicationStatus(db, CompanyCaller, 4, "APPROVED", 3);
      o.result.Ok? && Offered(o.db)
  {
    assert OwnedApplication(db, CompanyCaller, 4).Ok?;
    var o := UpdateApplicationStatus(db, CompanyCaller, 4, "APPROVED", 3);
    assert o.db.companies == db.companies && o.db.students == db.students && o.db.heads == db.heads;
    assert o.db.posts == db.posts && o.db.applications.Keys == {4};
  }

  lemma StudentSelects(db: Db)
    requires Offered(db)
    ensures var o := SelectApplication(db, StudentCaller, 4, 4);
      o.result.Ok? && Chosen(o.db)
  {
    assert SelectedApplicationOf(db.applications, 1).None?;
    StudentProfileIgnoresStatus(db.students, 1, WaitingForApproval, StudentCaller);
  }

  lemma CompanySendsApprovalFile(db: Db)
    requires Chosen(db)
    ensures var o := SubmitApprovalFiles(db, CompanyCaller, 4, Some("ok"), "approval-1", 5);
      o.result.Ok? && Endorsed(o.db)
  {
    StudentProfileIgnoresStatus(db.students, 1, WaitingForApproval, StudentCaller);
  }

  lemma HeadIssuesDocument(db: Db)
    requires Endorsed(db)
    ensures var o := SubmitOfficialDocument(db, HeadCaller, 4, Some("doc"), "official-1", 6);
      o.result.Ok? && Training(o.db, 0)
  {
    StudentProfileIgnoresStatus(db.students, 1, InTraining, StudentCaller);
  }

  lemma CompanyReportsActivity(db: Db, n: nat)
    requires Training(db, n)
    ensures var o := SubmitActivityReport(db, CompanyCaller, 4, Some("week"), "activity", 7);
      o.result.Ok? && Training(o.db, n + 1)
  {
    assert OwnedApplication(db, CompanyCaller, 4).Ok?;
    var o := SubmitActivityReport(db, CompanyCaller, 4, Some("week"), "activity", 7);
    assert o.db.companies == db.companies && o.db.students == db.students && o.db.heads == db.heads;
    assert o.db.posts == db.posts && o.db.applications.Keys == {4};
  }

  /** With two activity reports in, the final report completes the training. */
  lemma StudentCompletes(db: Db)
    requires Training(db, 2)
    ensures var o := SubmitFinalReport(db, StudentCaller, Some("done"), "final-1", 9);
      o.result.Ok? && o.db.students[1].trainingStatus == Completed
  {
    assert SelectedApplicationOf(db.applications, 1) == Some(4);
  }
}
