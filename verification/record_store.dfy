/** The record store as the controllers use it: five collections that the
    actions read with `findOne`/`findById`, change field by field and write
    back with `save`, `create`, `findByIdAndUpdate` or `remove`. Each method
    performs one controller action in place and is proved to leave exactly
    the store, and to answer exactly what, the action's specification
    function in its controller module describes; the invariant `Valid` is
    kept by every method. */
module RecordStore {
  import opened Text
  import opened Schema
  import opened EntityStore
  import TrainingPosts
  import DepartmentHeads
  import Students
  import Companies

  class Store {
    var companies: map<Id, Company>
    var students: map<Id, Student>
    var heads: map<Id, DepartmentHead>
    var posts: map<Id, TrainingPost>
    var applications: map<Id, Application>
    var nextId: nat

    /** The collections as one value. */
    function State(): Db
      reads this
    {
      Db(companies, students, heads, posts, applications, nextId)
    }

    ghost predicate Valid()
      reads this
    {
      EntityStore.Valid(State())
    }

    /** An empty database. */
    constructor()
      ensures State() == EmptyDb && Valid()
    {
      companies, students, heads, posts, applications, nextId := map[], map[], map[], map[], map[], 0;
      EmptyDbValid();
    }

    /** `Company.create` for a user without a company profile. */
    method RegisterCompany(user: Id, name: string, phone: int, location: string, fieldOfWork: string)
      returns (r: Result<(Id, Company)>)
      requires Valid() && CompanyOf(companies, user).None?
      modifies this
      ensures Valid()
      ensures var o := EntityStore.RegisterCompany(old(State()), user, name, phone, location, fieldOfWork);
        State() == o.db && r == o.result
    {
      ghost var o := EntityStore.RegisterCompany(State(), user, name, phone, location, fieldOfWork);
      var c := Company(user, name, phone, location, fieldOfWork);
      companies := companies[nextId := c];
      r := Ok((nextId, c));
      nextId := nextId + 1;
      assert State() == o.db;
      SameStoreValid(o.db, State());
    }

    /** `Student.create` for a user without a student profile. */
    method RegisterStudent(user: Id, universityId: int, name: string, department: string, completedHours: int)
      returns (r: Result<(Id, Student)>)
      requires Valid() && StudentOf(students, user).None?
      modifies this
      ensures Valid()
      ensures var o := EntityStore.RegisterStudent(old(State()), user, universityId, name, department, completedHours);
        State() == o.db && r == o.result
    {
      ghost var o := EntityStore.RegisterStudent(State(), user, universityId, name, department, completedHours);
      UniversityIdRange(universityId);
      var dept := ParseDepartment(department);
      if !ValidUniversityId(universityId) || name == "" || dept.None? || completedHours < 0 {
        return Err(ValidationFailed);
      }
      if exists s :: s in students && students[s].universityId == universityId {
        return Err(DuplicateKey);
      }
      var s := NewStudent(user, universityId, name, dept.value, completedHours);
      students := students[nextId := s];
      r := Ok((nextId, s));
      nextId := nextId + 1;
      assert State() == o.db;
      SameStoreValid(o.db, State());
    }

    /** `DepartmentHead.create` for a user without a head profile. */
    method RegisterDepartmentHead(user: Id, name: string, department: string) returns (r: Result<(Id, DepartmentHead)>)
      requires Valid() && HeadOf(heads, user).None?
      modifies this
      ensures Valid()
      ensures var o := EntityStore.RegisterDepartmentHead(old(State()), user, name, department);
        State() == o.db && r == o.result
    {
      ghost var o := EntityStore.RegisterDepartmentHead(State(), user, name, department);
      var dept := ParseDepartment(department);
      if name == "" || dept.None? {
        return Err(ValidationFailed);
      }
      if exists h :: h in heads && heads[h].department == dept.value {
        return Err(DuplicateKey);
      }
      var h := DepartmentHead(user, name, dept.value);
      heads := heads[nextId := h];
      r := Ok((nextId, h));
      nextId := nextId + 1;
      assert State() == o.db;
      SameStoreValid(o.db, State());
    }

    /** `createTrainingPost`. */
    method CreateTrainingPost(caller: Caller, input: TrainingPosts.PostInput, now: Time)
      returns (r: Result<(Id, TrainingPost)>)
      requires Valid()
      modifies this
      ensures Valid()
      ensures var o := TrainingPosts.CreateTrainingPost(old(State()), caller, input, now);
        State() == o.db && r == o.result
    {
      ghost var o := TrainingPosts.CreateTrainingPost(State(), caller, input, now);
      var check := TrainingPosts.CreationCheck(State(), caller, input, now);
      if check.Err? {
        return Err(check.error);
      }
      var post := check.value;
      CreationOutcome(State(), caller, input, now);
      var id := InsertPost(post);
      r := Ok((id, post));
    }

    /** `TrainingPost.create`: stores a new post under the next id. */
    method InsertPost(post: TrainingPost) returns (id: Id)
      requires Valid()
      requires PostConforms(post) && ReviewRecorded(post) && post.company in companies
      requires forall p :: p in posts ==> !(posts[p].company == post.company && posts[p].title == post.title)
      modifies this
      ensures Valid() && id == old(nextId)
      ensures State() == old(State()).(posts := old(posts)[id := post], nextId := id + 1)
    {
      ghost var db := State();
      InsertPostKeepsValid(db, post);
      id := nextId;
      posts := posts[id := post];
      nextId := id + 1;
      ValidFromParts(db.(posts := db.posts[id := post], nextId := id + 1), companies, students, heads, posts,
                     applications, nextId);
    }

    /** `updatePost`: `findByIdAndUpdate` of a pending post the caller owns. */
    method UpdatePost(caller: Caller, id: Id, patch: TrainingPosts.PostPatch, now: Time) returns (r: Result<TrainingPost>)
      requires Valid()
      modifies this
      ensures Valid()
      ensures var o := TrainingPosts.UpdatePost(old(State()), caller, id, patch, now);
        State() == o.db && r == o.result
    {
      ghost var o := TrainingPosts.UpdatePost(State(), caller, id, patch, now);
      var owner := TrainingPosts.OwnedPendingPost(State(), caller, id);
      if owner.Err? {
        return Err(owner.error);
      }
      if ProvidedNumber(patch.duration) && !AllowedDuration(patch.duration.value) {
        return Err(BadRequest);
      }
      if patch.availableUntil.Some? && patch.availableUntil.value <= now {
        return Err(BadRequest);
      }
      var post := TrainingPosts.Patched(posts[id], patch, now);
      if !PostConforms(post) {
        return Err(ValidationFailed);
      }
      if TrainingPosts.TitleTaken(posts - {id}, owner.value, post.title) {
        return Err(DuplicateKey);
      }
      posts := posts[id := post];
      r := Ok(post);
      assert State() == o.db;
      SameStoreValid(o.db, State());
    }

    /** `deletePost`: `remove` of a pending post the caller owns. */
    method DeletePost(caller: Caller, id: Id) returns (r: Result<()>)
      requires Valid()
      modifies this
      ensures Valid()
      ensures var o := TrainingPosts.DeletePost(old(State()), caller, id);
        State() == o.db && r == o.result
    {
      ghost var o := TrainingPosts.DeletePost(State(), caller, id);
      var owner := TrainingPosts.OwnedPendingPost(State(), caller, id);
      if owner.Err? {
        return Err(owner.error);
      }
      posts := posts - {id};
      r := Ok(());
      assert State() == o.db;
      SameStoreValid(o.db, State());
    }

    /** `reviewTrainingPost`: the status, reviewer and review time are set on the post. */
    method ReviewTrainingPost(caller: Caller, id: Id, status: string, now: Time) returns (r: Result<TrainingPost>)
      requires Valid()
      modifies this
      ensures Valid()
      ensures var o := DepartmentHeads.ReviewTrainingPost(old(State()), caller, id, status, now);
        State() == o.db && r == o.result
    {
      ghost var o := DepartmentHeads.ReviewTrainingPost(State(), caller, id, status, now);
      if !IsDecision(status) {
        return Err(BadRequest);
      }
      var head := HeadProfile(heads, caller);
      if head.Err? {
        return Err(head.error);
      }
      if id !in posts {
        return Err(NotFound);
      }
      var post := posts[id];
      if post.status != Pending {
        return Err(BadRequest);
      }
      post := post.(status := DecidedPostStatus(status));
      post := post.(approvedBy := Some(head.value));
      post := post.(approvedAt := Some(now));
      posts := posts[id := post];
      r := Ok(post);
      assert State() == o.db;
      SameStoreValid(o.db, State());
    }

    /** `submitOfficialDocument`: the document is stored on the application and
        the student starts the training. */
    method SubmitOfficialDocument(caller: Caller, appId: Id, content: Option<string>, path: Handle, now: Time)
      returns (r: Result<Application>)
      requires Valid()
      modifies this
      ensures Valid()
      ensures var o := DepartmentHeads.SubmitOfficialDocument(old(State()), caller, appId, content, path, now);
        State() == o.db && r == o.result
    {
      ghost var o := DepartmentHeads.SubmitOfficialDocument(State(), caller, appId, content, path, now);
      var check := DepartmentHeads.OfficialDocumentCheck(State(), caller, appId, content);
      if check.Err? {
        return Err(check.error);
      }
      var app := applications[appId];
      app := app.(officialDocument := Some(path));
      app := app.(updatedAt := Some(now));
      applications := applications[appId := app];
      var s := app.student;
      students := students[s := students[s].(trainingStatus := InTraining)];
      r := Ok(app);
      assert State() == o.db;
      SameStoreValid(o.db, State());
    }

    /** `applyForTraining`: `Application.create` for the caller. */
    method ApplyForTraining(caller: Caller, postId: Id, cv: Option<Handle>, now: Time) returns (r: Result<(Id, Application)>)
      requires Valid()
      modifies this
      ensures Valid()
      ensures var o := Students.ApplyForTraining(old(State()), caller, postId, cv, now);
        State() == o.db && r == o.result
    {
      ghost var o := Students.ApplyForTraining(State(), caller, postId, cv, now);
      if cv.None? {
        return Err(BadRequest);
      }
      var student := StudentProfile(students, caller);
      if student.Err? {
        return Err(student.error);
      }
      var s := student.value;
      if students[s].completedHours < Students.MinCompletedHours {
        return Err(BadRequest);
      }
      if postId !in posts {
        return Err(NotFound);
      }
      if !Students.OpenForApplication(posts[postId], now) || Students.HasApplied(applications, s, postId) {
        return Err(BadRequest);
      }
      if cv.value == "" {
        return Err(ValidationFailed);
      }
      var app := NewApplication(s, postId, cv.value, now);
      applications := applications[nextId := app];
      r := Ok((nextId, app));
      nextId := nextId + 1;
      assert State() == o.db;
      SameStoreValid(o.db, State());
    }

    /** `selectApplication`: the application is marked as chosen and the
        student waits for the company's approval. */
    method SelectApplication(caller: Caller, appId: Id, now: Time) returns (r: Result<Application>)
      requires Valid()
      modifies this
      ensures Valid()
      ensures var o := Students.SelectApplication(old(State()), caller, appId, now);
        State() == o.db && r == o.result
    {
      ghost var db := State();
      ghost var o := Students.SelectApplication(db, caller, appId, now);
      var check := Students.SelectionCheck(State(), caller, appId);
      if check.Err? {
        return Err(check.error);
      }
      var s := check.value;
      SelectionOutcome(db, caller, appId, now);
      var app := applications[appId].(selectedByStudent := true, updatedAt := Some(now));
      applications := applications[appId := app];
      students := students[s := students[s].(trainingStatus := WaitingForApproval)];
      r := Ok(app);
      ValidFromParts(o.db, companies, students, heads, posts, applications, nextId);
    }

    /** `submitFinalReport`: the report is stored on the selected application;
        with two or more activity reports the student completes. */
    method SubmitFinalReport(caller: Caller, content: Option<string>, path: Handle, now: Time)
      returns (r: Result<Application>)
      requires Valid()
      modifies this
      ensures Valid()
      ensures var o := Students.SubmitFinalReport(old(State()), caller, content, path, now);
        State() == o.db && r == o.result
    {
      ghost var o := Students.SubmitFinalReport(State(), caller, content, path, now);
      var check := Students.FinalReportCheck(State(), caller, content);
      if check.Err? {
        return Err(check.error);
      }
      var (s, a) := check.value;
      FinalReportOutcome(State(), caller, content, path, now);
      var app := applications[a].(finalReport := Some(path), updatedAt := Some(now));
      applications := applications[a := app];
      if |app.activityReports| >= 2 {
        students := students[s := students[s].(trainingStatus := Completed)];
        r := Ok(app);
        ValidFromParts(o.db, companies, students, heads, posts, applications, nextId);
      } else {
        r := Ok(app);
        ValidFromParts(o.db, companies, students, heads, posts, applications, nextId);
      }
    }

    /** `updateProfile` of the caller's company. */
    method UpdateProfile(caller: Caller, patch: Companies.ProfilePatch) returns (r: Result<Company>)
      requires Valid()
      modifies this
      ensures Valid()
      ensures var o := Companies.UpdateProfile(old(State()), caller, patch);
        State() == o.db && r == o.result
    {
      ghost var o := Companies.UpdateProfile(State(), caller, patch);
      var company := CompanyProfile(companies, caller);
      if company.Err? {
        return Err(company.error);
      }
      var c := company.value;
      var updated := Companies.PatchedProfile(companies[c], patch);
      companies := companies[c := updated];
      r := Ok(updated);
      assert State() == o.db;
      SameStoreValid(o.db, State());
    }

    /** `updateApplicationStatus`: the company's decision is written over the old status. */
    method UpdateApplicationStatus(caller: Caller, appId: Id, status: string, now: Time) returns (r: Result<Application>)
      requires Valid()
      modifies this
      ensures Valid()
      ensures var o := Companies.UpdateApplicationStatus(old(State()), caller, appId, status, now);
        State() == o.db && r == o.result
    {
      ghost var o := Companies.UpdateApplicationStatus(State(), caller, appId, status, now);
      if !IsDecision(status) {
        return Err(BadRequest);
      }
      var owner := Companies.OwnedApplication(State(), caller, appId);
      if owner.Err? {
        return Err(owner.error);
      }
      var app := applications[appId];
      app := app.(status := DecidedAppStatus(status));
      app := app.(updatedAt := Some(now));
      applications := applications[appId := app];
      r := Ok(app);
      assert State() == o.db;
      SameStoreValid(o.db, State());
    }

    /** `submitApprovalFiles`: the file is pushed onto the application; the
        first one puts the student in WAITING_FOR_APPROVAL. */
    method SubmitApprovalFiles(caller: Caller, appId: Id, content: Option<string>, path: Handle, now: Time)
      returns (r: Result<Application>)
      requires Valid()
      modifies this
      ensures Valid()
      ensures var o := Companies.SubmitApprovalFiles(old(State()), caller, appId, content, path, now);
        State() == o.db && r == o.result
    {
      ghost var o := Companies.SubmitApprovalFiles(State(), caller, appId, content, path, now);
      var check := Companies.ApprovalFileCheck(State(), caller, appId, content);
      if check.Err? {
        return Err(check.error);
      }
      var app := applications[appId];
      app := app.(approvalFiles := app.approvalFiles + [path]);
      app := app.(updatedAt := Some(now));
      applications := applications[appId := app];
      if |app.approvalFiles| == 1 {
        var s := app.student;
        students := students[s := students[s].(trainingStatus := WaitingForApproval)];
      }
      r := Ok(app);
      assert State() == o.db;
      SameStoreValid(o.db, State());
    }

    /** `submitActivityReport`: the report is pushed onto the application. */
    method SubmitActivityReport(caller: Caller, appId: Id, content: Option<string>, path: Handle, now: Time)
      returns (r: Result<Application>)
      requires Valid()
      modifies this
      ensures Valid()
      ensures var o := Companies.SubmitActivityReport(old(State()), caller, appId, content, path, now);
        State() == o.db && r == o.result
    {
      ghost var o := Companies.SubmitActivityReport(State(), caller, appId, content, path, now);
      var check := Companies.ActivityReportCheck(State(), caller, appId, content);
      if check.Err? {
        return Err(check.error);
      }
      var app := applications[appId];
      app := app.(activityReports := app.activityReports + [path]);
      app := app.(updatedAt := Some(now));
      applications := applications[appId := app];
      r := Ok(app);
      assert State() == o.db;
      SameStoreValid(o.db, State());
    }
  }

  /** The store a successful creation leaves, field by field. */
  lemma CreationOutcome(db: Db, caller: Caller, input: TrainingPosts.PostInput, now: Time)
    requires EntityStore.Valid(db) && TrainingPosts.CreationCheck(db, caller, input, now).Ok?
    ensures var post := TrainingPosts.CreationCheck(db, caller, input, now).value;
      TrainingPosts.CreateTrainingPost(db, caller, input, now)
        == Outcome(db.(posts := db.posts[db.nextId := post], nextId := db.nextId + 1), Ok((db.nextId, post)))
  {
  }

  /** The store a successful selection leaves, field by field. */
  lemma SelectionOutcome(db: Db, caller: Caller, appId: Id, now: Time)
    requires EntityStore.Valid(db) && Students.SelectionCheck(db, caller, appId).Ok?
    ensures var s := Students.SelectionCheck(db, caller, appId).value;
      var app := db.applications[appId].(selectedByStudent := true, updatedAt := Some(now));
      Students.SelectApplication(db, caller, appId, now)
        == Outcome(db.(applications := db.applications[appId := app],
                       students := db.students[s := db.students[s].(trainingStatus := WaitingForApproval)]), Ok(app))
  {
  }

  /** The store a successful final report leaves, field by field. */
  lemma FinalReportOutcome(db: Db, caller: Caller, content: Option<string>, path: Handle, now: Time)
    requires EntityStore.Valid(db) && Students.FinalReportCheck(db, caller, content).Ok?
    ensures var (s, a) := Students.FinalReportCheck(db, caller, content).value;
      var app := db.applications[a].(finalReport := Some(path), updatedAt := Some(now));
      Students.SubmitFinalReport(db, caller, content, path, now)
        == Outcome(db.(applications := db.applications[a := app],
                       students := if |app.activityReports| >= 2
                                   then db.students[s := db.students[s].(trainingStatus := Completed)]
                                   else db.students), Ok(app))
  {
  }

  /** A step for the solver, not a property of the program: the invariant
      depends on the collections only, so a database rebuilt from the same
      fields is valid too. The store methods call it after assigning their
      fields, so that `Valid` is not unfolded again over the whole state. */
  lemma ValidFromParts(db: Db, companies: map<Id, Company>, students: map<Id, Student>,
                       heads: map<Id, DepartmentHead>, posts: map<Id, TrainingPost>,
                       applications: map<Id, Application>, nextId: nat)
    requires EntityStore.Valid(db)
    requires db.companies == companies && db.students == students && db.heads == heads
    requires db.posts == posts && db.applications == applications && db.nextId == nextId
    ensures EntityStore.Valid(Db(companies, students, heads, posts, applications, nextId))
  {
  }

  /** A step for the solver, not a property of the program: it carries
      `Valid` across an equality between databases without unfolding it. */
  lemma SameStoreValid(db: Db, db': Db)
    requires EntityStore.Valid(db) && db' == db
    ensures EntityStore.Valid(db')
  {
  }
}
