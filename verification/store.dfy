/** The record store: five collections keyed by record id, the caller's
    identity, the invariant every controller action keeps (schema validators,
    unique indexes, links between records, at most one selected application
    per student), the `findOne({ user })` profile lookups, and the insertion
    of profiles (the schema checks a `create` runs). */
module EntityStore {
  import opened Text
  import opened Schema

  /** The role carried by an authenticated user. */
  datatype Role = AdminRole | CompanyRole | StudentRole | HeadRole

  /** The authenticated caller: a user id and its role. */
  datatype Caller = Caller(user: Id, role: Role)

  datatype Db = Db(
    companies: map<Id, Company>,
    students: map<Id, Student>,
    heads: map<Id, DepartmentHead>,
    posts: map<Id, TrainingPost>,
    applications: map<Id, Application>,
    nextId: nat)

  /** The store after a request, and what the request answered. */
  datatype Outcome<T> = Outcome(db: Db, result: Result<T>)

  const EmptyDb: Db := Db(map[], map[], map[], map[], map[], 0)

  /** Each company user owns one company profile, so `Company.findOne({ user })` is a function. */
  ghost predicate CompaniesValid(companies: map<Id, Company>)
  {
    forall a, b :: SameCompanyUser(companies, a, b) ==> a == b
  }

  // The unique indexes of the schemas, and the one-profile-per-user and
  // one-selection-per-student rules. Each predicate states when two records
  // collide; the invariant says that only a record collides with itself.

  /** Two company profiles of the same user. */
  ghost predicate SameCompanyUser(companies: map<Id, Company>, a: Id, b: Id)
  {
    a in companies && b in companies && companies[a].user == companies[b].user
  }

  /** Two student profiles of the same user. */
  ghost predicate SameStudentUser(students: map<Id, Student>, a: Id, b: Id)
  {
    a in students && b in students && students[a].user == students[b].user
  }

  /** Two head profiles of the same user. */
  ghost predicate SameHeadUser(heads: map<Id, DepartmentHead>, a: Id, b: Id)
  {
    a in heads && b in heads && heads[a].user == heads[b].user
  }

  /** Two selected applications of the same student. */
  ghost predicate BothSelected(apps: map<Id, Application>, a: Id, b: Id)
  {
    && a in apps && b in apps && apps[a].selectedByStudent && apps[b].selectedByStudent
    && apps[a].student == apps[b].student
  }

  /** Two students with the same university id. */
  ghost predicate SameUniversityId(students: map<Id, Student>, a: Id, b: Id)
  {
    a in students && b in students && students[a].universityId == students[b].universityId
  }

  /** Two heads of the same department. */
  ghost predicate SameDepartment(heads: map<Id, DepartmentHead>, a: Id, b: Id)
  {
    a in heads && b in heads && heads[a].department == heads[b].department
  }

  /** Two posts of the same company with the same title. */
  ghost predicate SameCompanyTitle(posts: map<Id, TrainingPost>, a: Id, b: Id)
  {
    a in posts && b in posts && posts[a].company == posts[b].company && posts[a].title == posts[b].title
  }

  /** Two applications of the same student to the same post. */
  ghost predicate SameStudentPost(apps: map<Id, Application>, a: Id, b: Id)
  {
    a in apps && b in apps && apps[a].student == apps[b].student && apps[a].trainingPost == apps[b].trainingPost
  }

  /** Every student passes the schema validators; one profile per user; the
      university id is unique. */
  ghost predicate StudentsValid(students: map<Id, Student>)
  {
    && (forall s :: s in students ==> StudentConforms(students[s]))
    && (forall a, b :: SameStudentUser(students, a, b) ==> a == b)
    && (forall a, b :: SameUniversityId(students, a, b) ==> a == b)
  }

  /** Every head has a name; one profile per user; one head per department. */
  ghost predicate HeadsValid(heads: map<Id, DepartmentHead>)
  {
    && (forall h :: h in heads ==> HeadConforms(heads[h]))
    && (forall a, b :: SameHeadUser(heads, a, b) ==> a == b)
    && (forall a, b :: SameDepartment(heads, a, b) ==> a == b)
  }

  /** Every post passes the schema validators, records its review exactly
      when it has one, belongs to an existing company, and the (company,
      title) index is unique. */
  ghost predicate PostsValid(posts: map<Id, TrainingPost>, companies: map<Id, Company>)
  {
    && (forall p :: p in posts ==> PostConforms(posts[p]) && ReviewRecorded(posts[p]) && posts[p].company in companies)
    && (forall a, b :: SameCompanyTitle(posts, a, b) ==> a == b)
  }

  /** Every application has a CV, refers to an existing student and to an
      existing APPROVED post (applying needs an approved post, and an
      approved post is never changed back or deleted); the (student,
      trainingPost) index is unique; no student has two selected applications. */
  ghost predicate ApplicationsValid(apps: map<Id, Application>, students: map<Id, Student>,
                                    posts: map<Id, TrainingPost>)
  {
    && (forall a :: a in apps ==>
          && ApplicationConforms(apps[a])
          && apps[a].student in students
          && apps[a].trainingPost in posts
          && posts[apps[a].trainingPost].status == PostStatus.Approved)
    && (forall a, b :: SameStudentPost(apps, a, b) ==> a == b)
    && AtMostOneSelection(apps)
  }

  /** No student has two selected applications. */
  ghost predicate AtMostOneSelection(apps: map<Id, Application>)
  {
    forall a, b :: BothSelected(apps, a, b) ==> a == b
  }

  /** Every key of `m` is below the next id to hand out. */
  ghost predicate KeysBelow<V>(m: map<Id, V>, next: nat)
  {
    forall i :: i in m ==> i < next
  }

  /** Every id in use is below the next id to hand out, so a fresh id is fresh in every collection. */
  ghost predicate IdsBelowNext(db: Db)
  {
    && KeysBelow(db.companies, db.nextId)
    && KeysBelow(db.students, db.nextId)
    && KeysBelow(db.heads, db.nextId)
    && KeysBelow(db.posts, db.nextId)
    && KeysBelow(db.applications, db.nextId)
  }

  ghost predicate Valid(db: Db)
  {
    && CompaniesValid(db.companies)
    && StudentsValid(db.students)
    && HeadsValid(db.heads)
    && PostsValid(db.posts, db.companies)
    && ApplicationsValid(db.applications, db.students, db.posts)
    && IdsBelowNext(db)
  }

  /** `Company.findOne({ user })`. */
  function CompanyOf(companies: map<Id, Company>, user: Id): (r: Option<Id>)
    requires CompaniesValid(companies)
    ensures r.Some? ==> r.value in companies && companies[r.value].user == user
    ensures r.None? ==> forall c :: c in companies ==> companies[c].user != user
  {
    if exists c :: c in companies && companies[c].user == user then
      CompanyUserUnique(companies, user);
      var c :| c in companies && companies[c].user == user; Some(c)
    else None
  }

  /** `Student.findOne({ user })`. */
  function StudentOf(students: map<Id, Student>, user: Id): (r: Option<Id>)
    requires StudentsValid(students)
    ensures r.Some? ==> r.value in students && students[r.value].user == user
    ensures r.None? ==> forall s :: s in students ==> students[s].user != user
  {
    if exists s :: s in students && students[s].user == user then
      StudentUserUnique(students, user);
      var s :| s in students && students[s].user == user; Some(s)
    else None
  }

  /** `DepartmentHead.findOne({ user })`. */
  function HeadOf(heads: map<Id, DepartmentHead>, user: Id): (r: Option<Id>)
    requires HeadsValid(heads)
    ensures r.Some? ==> r.value in heads && heads[r.value].user == user
    ensures r.None? ==> forall h :: h in heads ==> heads[h].user != user
  {
    if exists h :: h in heads && heads[h].user == user then
      HeadUserUnique(heads, user);
      var h :| h in heads && heads[h].user == user; Some(h)
    else None
  }

  /** `Application.findOne({ student, selectedByStudent: true })`. */
  function SelectedApplicationOf(apps: map<Id, Application>, student: Id): (r: Option<Id>)
    requires AtMostOneSelection(apps)
    ensures r.Some? ==> r.value in apps && apps[r.value].student == student && apps[r.value].selectedByStudent
    ensures r.None? ==> forall a :: a in apps && apps[a].student == student ==> !apps[a].selectedByStudent
  {
    if exists a :: a in apps && apps[a].student == student && apps[a].selectedByStudent then
      SelectionUnique(apps, student);
      var a :| a in apps && apps[a].student == student && apps[a].selectedByStudent; Some(a)
    else None
  }

  // The lookups above return the only match: the invariant's one-per-key rules
  // restated for one key.

  lemma CompanyUserUnique(companies: map<Id, Company>, user: Id)
    requires CompaniesValid(companies)
    ensures forall a, b :: a in companies && companies[a].user == user && b in companies && companies[b].user == user
                           ==> a == b
  {
    forall a, b | a in companies && companies[a].user == user && b in companies && companies[b].user == user
      ensures a == b
    {
      assert SameCompanyUser(companies, a, b);
    }
  }

  lemma StudentUserUnique(students: map<Id, Student>, user: Id)
    requires StudentsValid(students)
    ensures forall a, b :: a in students && students[a].user == user && b in students && students[b].user == user
                           ==> a == b
  {
    forall a, b | a in students && students[a].user == user && b in students && students[b].user == user
      ensures a == b
    {
      assert SameStudentUser(students, a, b);
    }
  }

  lemma HeadUserUnique(heads: map<Id, DepartmentHead>, user: Id)
    requires HeadsValid(heads)
    ensures forall a, b :: a in heads && heads[a].user == user && b in heads && heads[b].user == user ==> a == b
  {
    forall a, b | a in heads && heads[a].user == user && b in heads && heads[b].user == user
      ensures a == b
    {
      assert SameHeadUser(heads, a, b);
    }
  }

  lemma SelectionUnique(apps: map<Id, Application>, student: Id)
    requires AtMostOneSelection(apps)
    ensures forall a, b ::
      (a in apps && apps[a].student == student && apps[a].selectedByStudent
       && b in apps && apps[b].student == student && apps[b].selectedByStudent) ==> a == b
  {
    forall a, b | a in apps && apps[a].student == student && apps[a].selectedByStudent
                  && b in apps && apps[b].student == student && apps[b].selectedByStudent
      ensures a == b
    {
      assert BothSelected(apps, a, b);
    }
  }

  /** The role check and `Company.findOne({ user })` a company action starts with. */
  function CompanyProfile(companies: map<Id, Company>, caller: Caller): (r: Result<Id>)
    requires CompaniesValid(companies)
    ensures r.Ok? <==> caller.role == CompanyRole && CompanyOf(companies, caller.user).Some?
    ensures r.Ok? ==> Some(r.value) == CompanyOf(companies, caller.user)
    ensures r.Err? ==> r.error == (if caller.role != CompanyRole then Forbidden else NotFound)
  {
    if caller.role != CompanyRole then Err(Forbidden)
    else match CompanyOf(companies, caller.user)
      case None => Err(NotFound)
      case Some(c) => Ok(c)
  }

  /** The role check and `Student.findOne({ user })` a student action starts with. */
  function StudentProfile(students: map<Id, Student>, caller: Caller): (r: Result<Id>)
    requires StudentsValid(students)
    ensures r.Ok? <==> caller.role == StudentRole && StudentOf(students, caller.user).Some?
    ensures r.Ok? ==> Some(r.value) == StudentOf(students, caller.user)
    ensures r.Err? ==> r.error == (if caller.role != StudentRole then Forbidden else NotFound)
  {
    if caller.role != StudentRole then Err(Forbidden)
    else match StudentOf(students, caller.user)
      case None => Err(NotFound)
      case Some(s) => Ok(s)
  }

  /** The role check and `DepartmentHead.findOne({ user })` a head action starts with. */
  function HeadProfile(heads: map<Id, DepartmentHead>, caller: Caller): (r: Result<Id>)
    requires HeadsValid(heads)
    ensures r.Ok? <==> caller.role == HeadRole && HeadOf(heads, caller.user).Some?
    ensures r.Ok? ==> Some(r.value) == HeadOf(heads, caller.user)
    ensures r.Err? ==> r.error == (if caller.role != HeadRole then Forbidden else NotFound)
  {
    if caller.role != HeadRole then Err(Forbidden)
    else match HeadOf(heads, caller.user)
      case None => Err(NotFound)
      case Some(h) => Ok(h)
  }

  /** A training-status change does not move any student profile to another user. */
  lemma StudentProfileIgnoresStatus(students: map<Id, Student>, id: Id, status: TrainingStatus, caller: Caller)
    requires StudentsValid(students) && id in students
    ensures StudentsValid(students[id := students[id].(trainingStatus := status)])
    ensures StudentProfile(students[id := students[id].(trainingStatus := status)], caller) == StudentProfile(students, caller)
  {
    var students' := students[id := students[id].(trainingStatus := status)];
    StudentsReplace(students, id, students[id].(trainingStatus := status));
    match StudentOf(students, caller.user)
    case None =>
      assert forall s :: s in students' ==> students'[s].user == students[s].user;
    case Some(s) =>
      assert s in students' && students'[s].user == caller.user;
      StudentUserUnique(students', caller.user);
  }

  lemma EmptyDbValid()
    ensures Valid(EmptyDb)
  {
  }

  /** `Student.create` for a newly registered user: all validators run
      (7-digit id, required name, department enum, `completedHours >= 0`),
      then the unique university-id index; the training status starts at
      NOT_STARTED. */
  function RegisterStudent(db: Db, user: Id, universityId: int, name: string, department: string,
                           completedHours: int): (r: Outcome<(Id, Student)>)
    requires Valid(db)
    requires StudentOf(db.students, user).None?
    ensures Valid(r.db)
    ensures r.result.Err? ==> r.db == db
    ensures r.result.Ok? <==>
      && 1000000 <= universityId <= 9999999 && name != "" && ParseDepartment(department).Some?
      && completedHours >= 0
      && forall s :: s in db.students ==> db.students[s].universityId != universityId
    ensures r.result.Ok? ==>
      var (id, s) := r.result.value;
      && id !in db.students && id == db.nextId && r.db.students == db.students[id := s]
      && s.trainingStatus == NotStarted && s.user == user && s.universityId == universityId && s.name == name
      && DepartmentName(s.department) == department && s.completedHours == completedHours
      && r.db == db.(students := r.db.students, nextId := id + 1)
  {
    UniversityIdRange(universityId);
    var dept := ParseDepartment(department);
    if !ValidUniversityId(universityId) || name == "" || dept.None? || completedHours < 0 then
      Outcome(db, Err(ValidationFailed))
    else if exists s :: s in db.students && db.students[s].universityId == universityId then
      Outcome(db, Err(DuplicateKey))
    else
      var s := NewStudent(user, universityId, name, dept.value, completedHours);
      StudentsInsert(db.students, db.nextId, s);
      Outcome(db.(students := db.students[db.nextId := s], nextId := db.nextId + 1), Ok((db.nextId, s)))
  }

  /** `DepartmentHead.create`: required name, department enum, then the
      unique department index (one head per department). */
  function RegisterDepartmentHead(db: Db, user: Id, name: string, department: string): (r: Outcome<(Id, DepartmentHead)>)
    requires Valid(db)
    requires HeadOf(db.heads, user).None?
    ensures Valid(r.db)
    ensures r.result.Err? ==> r.db == db
    ensures r.result.Ok? <==>
      && name != "" && ParseDepartment(department).Some?
      && forall h :: h in db.heads ==> Some(db.heads[h].department) != ParseDepartment(department)
    ensures r.result.Ok? ==>
      var (id, h) := r.result.value;
      && id !in db.heads && id == db.nextId && r.db.heads == db.heads[id := h]
      && h.user == user && h.name == name && DepartmentName(h.department) == department
      && r.db == db.(heads := r.db.heads, nextId := id + 1)
  {
    var dept := ParseDepartment(department);
    if name == "" || dept.None? then
      Outcome(db, Err(ValidationFailed))
    else if exists h :: h in db.heads && db.heads[h].department == dept.value then
      Outcome(db, Err(DuplicateKey))
    else
      var h := DepartmentHead(user, name, dept.value);
      HeadsInsert(db.heads, db.nextId, h);
      Outcome(db.(heads := db.heads[db.nextId := h], nextId := db.nextId + 1), Ok((db.nextId, h)))
  }

  /** `Company.create` after registration: the profile is stored as given. */
  function RegisterCompany(db: Db, user: Id, name: string, phone: int, location: string, fieldOfWork: string)
    : (r: Outcome<(Id, Company)>)
    requires Valid(db)
    requires CompanyOf(db.companies, user).None?
    ensures Valid(r.db) && r.result.Ok?
    ensures var (id, c) := r.result.value;
      && id !in db.companies && id == db.nextId && r.db.companies == db.companies[id := c]
      && c == Company(user, name, phone, location, fieldOfWork)
      && r.db == db.(companies := r.db.companies, nextId := id + 1)
  {
    var c := Company(user, name, phone, location, fieldOfWork);
    CompaniesInsert(db.companies, db.nextId, c);
    Outcome(db.(companies := db.companies[db.nextId := c], nextId := db.nextId + 1), Ok((db.nextId, c)))
  }

  // Frame lemmas: each kind of change a controller action makes keeps the
  // invariant. They are stated one collection at a time, then per change.

  lemma KeysBelowInsert<V>(m: map<Id, V>, next: nat, v: V)
    requires KeysBelow(m, next)
    ensures KeysBelow(m[next := v], next + 1)
  {
  }

  lemma KeysBelowGrow<V>(m: map<Id, V>, next: nat)
    requires KeysBelow(m, next)
    ensures KeysBelow(m, next + 1)
  {
  }

  lemma PostsInsert(posts: map<Id, TrainingPost>, companies: map<Id, Company>, id: Id, post: TrainingPost)
    requires PostsValid(posts, companies) && id !in posts
    requires PostConforms(post) && ReviewRecorded(post) && post.company in companies
    requires forall p :: p in posts ==> !(posts[p].company == post.company && posts[p].title == post.title)
    ensures PostsValid(posts[id := post], companies)
  {
    var posts' := posts[id := post];
    forall a, b | SameCompanyTitle(posts', a, b)
      ensures a == b
    {
      if a != id && b != id {
        assert SameCompanyTitle(posts, a, b);
      }
    }
  }

  lemma PostsReplace(posts: map<Id, TrainingPost>, companies: map<Id, Company>, id: Id, post: TrainingPost)
    requires PostsValid(posts, companies) && id in posts
    requires PostConforms(post) && ReviewRecorded(post) && post.company in companies
    requires post.company != posts[id].company || post.title != posts[id].title ==>
               forall p :: p in posts && p != id ==> !(posts[p].company == post.company && posts[p].title == post.title)
    ensures PostsValid(posts[id := post], companies)
  {
    forall p | p in posts && p != id
      ensures !(posts[p].company == posts[id].company && posts[p].title == posts[id].title)
    {
      assert !SameCompanyTitle(posts, p, id);
    }
    var posts' := posts[id := post];
    forall a, b | SameCompanyTitle(posts', a, b)
      ensures a == b
    {
      if a != id && b != id {
        assert SameCompanyTitle(posts, a, b);
      }
    }
  }

  lemma PostsRemove(posts: map<Id, TrainingPost>, companies: map<Id, Company>, id: Id)
    requires PostsValid(posts, companies)
    ensures PostsValid(posts - {id}, companies)
  {
    forall a, b | SameCompanyTitle(posts - {id}, a, b)
      ensures a == b
    {
      assert SameCompanyTitle(posts, a, b);
    }
  }

  lemma PostsKeepCompanies(posts: map<Id, TrainingPost>, companies: map<Id, Company>, companies': map<Id, Company>)
    requires PostsValid(posts, companies) && companies'.Keys == companies.Keys
    ensures PostsValid(posts, companies')
  {
  }

  lemma ApplicationsKeepPosts(apps: map<Id, Application>, students: map<Id, Student>,
                              posts: map<Id, TrainingPost>, posts': map<Id, TrainingPost>)
    requires ApplicationsValid(apps, students, posts)
    requires forall p :: p in posts && posts[p].status == PostStatus.Approved ==> p in posts' && posts'[p].status == PostStatus.Approved
    ensures ApplicationsValid(apps, students, posts')
  {
  }

  lemma ApplicationsKeepStudents(apps: map<Id, Application>, students: map<Id, Student>,
                                 students': map<Id, Student>, posts: map<Id, TrainingPost>)
    requires ApplicationsValid(apps, students, posts) && students'.Keys == students.Keys
    ensures ApplicationsValid(apps, students', posts)
  {
  }

  lemma ApplicationsInsert(apps: map<Id, Application>, students: map<Id, Student>,
                           posts: map<Id, TrainingPost>, id: Id, app: Application)
    requires ApplicationsValid(apps, students, posts) && id !in apps
    requires ApplicationConforms(app) && app.student in students && app.trainingPost in posts
    requires posts[app.trainingPost].status == PostStatus.Approved && !app.selectedByStudent
    requires forall a :: a in apps ==> !(apps[a].student == app.student && apps[a].trainingPost == app.trainingPost)
    ensures ApplicationsValid(apps[id := app], students, posts)
  {
    var apps' := apps[id := app];
    forall a, b | SameStudentPost(apps', a, b)
      ensures a == b
    {
      if a != id && b != id {
        assert SameStudentPost(apps, a, b);
      }
    }
    forall a, b | BothSelected(apps', a, b)
      ensures a == b
    {
      assert BothSelected(apps, a, b);
    }
  }

  lemma ApplicationsReplace(apps: map<Id, Application>, students: map<Id, Student>,
                            posts: map<Id, TrainingPost>, id: Id, app: Application)
    requires ApplicationsValid(apps, students, posts) && id in apps
    requires ApplicationConforms(app)
    requires app.student == apps[id].student && app.trainingPost == apps[id].trainingPost
    requires app.selectedByStudent && !apps[id].selectedByStudent ==>
               forall a :: a in apps && a != id && apps[a].student == app.student ==> !apps[a].selectedByStudent
    ensures ApplicationsValid(apps[id := app], students, posts)
  {
    var apps' := apps[id := app];
    forall a, b | SameStudentPost(apps', a, b)
      ensures a == b
    {
      assert SameStudentPost(apps, a, b);
    }
    forall b | b in apps && b != id && apps[b].student == apps[id].student && apps[id].selectedByStudent
      ensures !apps[b].selectedByStudent
    {
      assert !BothSelected(apps, id, b);
    }
    forall a, b | BothSelected(apps', a, b)
      ensures a == b
    {
      if a != id && b != id {
        assert BothSelected(apps, a, b);
      }
    }
  }

  lemma StudentsReplace(students: map<Id, Student>, id: Id, s: Student)
    requires StudentsValid(students) && id in students
    requires StudentConforms(s) && s.user == students[id].user && s.universityId == students[id].universityId
    ensures StudentsValid(students[id := s])
  {
    var students' := students[id := s];
    forall a, b | SameUniversityId(students', a, b)
      ensures a == b
    {
      assert SameUniversityId(students, a, b);
    }
    forall a, b | SameStudentUser(students', a, b)
      ensures a == b
    {
      assert SameStudentUser(students, a, b);
    }
  }

  lemma StudentsInsert(students: map<Id, Student>, id: Id, s: Student)
    requires StudentsValid(students) && id !in students && StudentConforms(s)
    requires forall t :: t in students ==> students[t].user != s.user && students[t].universityId != s.universityId
    ensures StudentsValid(students[id := s])
  {
    var students' := students[id := s];
    forall a, b | SameUniversityId(students', a, b)
      ensures a == b
    {
      if a != id && b != id {
        assert SameUniversityId(students, a, b);
      }
    }
    forall a, b | SameStudentUser(students', a, b)
      ensures a == b
    {
      if a != id && b != id {
        assert SameStudentUser(students, a, b);
      }
    }
  }

  lemma HeadsInsert(heads: map<Id, DepartmentHead>, id: Id, h: DepartmentHead)
    requires HeadsValid(heads) && id !in heads && HeadConforms(h)
    requires forall t :: t in heads ==> heads[t].user != h.user && heads[t].department != h.department
    ensures HeadsValid(heads[id := h])
  {
    var heads' := heads[id := h];
    forall a, b | SameDepartment(heads', a, b)
      ensures a == b
    {
      if a != id && b != id {
        assert SameDepartment(heads, a, b);
      }
    }
    forall a, b | SameHeadUser(heads', a, b)
      ensures a == b
    {
      if a != id && b != id {
        assert SameHeadUser(heads, a, b);
      }
    }
  }

  lemma CompaniesReplace(companies: map<Id, Company>, id: Id, c: Company)
    requires CompaniesValid(companies) && id in companies && c.user == companies[id].user
    ensures CompaniesValid(companies[id := c])
  {
    var companies' := companies[id := c];
    forall a, b | SameCompanyUser(companies', a, b)
      ensures a == b
    {
      assert SameCompanyUser(companies, a, b);
    }
  }

  lemma CompaniesInsert(companies: map<Id, Company>, id: Id, c: Company)
    requires CompaniesValid(companies) && id !in companies
    requires forall t :: t in companies ==> companies[t].user != c.user
    ensures CompaniesValid(companies[id := c])
  {
    var companies' := companies[id := c];
    forall a, b | SameCompanyUser(companies', a, b)
      ensures a == b
    {
      if a != id && b != id {
        assert SameCompanyUser(companies, a, b);
      }
    }
  }

  /** Inserting a conforming post under the next id, for an existing company,
      with a (company, title) pair not yet taken, keeps the invariant. */
  lemma InsertPostKeepsValid(db: Db, post: TrainingPost)
    requires Valid(db)
    requires PostConforms(post) && ReviewRecorded(post) && post.company in db.companies
    requires forall p :: p in db.posts ==> !(db.posts[p].company == post.company && db.posts[p].title == post.title)
    ensures Valid(db.(posts := db.posts[db.nextId := post], nextId := db.nextId + 1))
  {
    var n := db.nextId;
    PostsInsert(db.posts, db.companies, n, post);
    ApplicationsKeepPosts(db.applications, db.students, db.posts, db.posts[n := post]);
    KeysBelowInsert(db.posts, n, post);
    KeysBelowGrow(db.companies, n);
    KeysBelowGrow(db.students, n);
    KeysBelowGrow(db.heads, n);
    KeysBelowGrow(db.applications, n);
  }

  /** Overwriting a post with a conforming document of the same company whose
      (company, title) pair no other post holds keeps the invariant, provided
      an approved post stays approved. */
  lemma ReplacePostKeepsValid(db: Db, id: Id, post: TrainingPost)
    requires Valid(db) && id in db.posts
    requires PostConforms(post) && ReviewRecorded(post) && post.company == db.posts[id].company
    requires db.posts[id].status == PostStatus.Approved ==> post.status == PostStatus.Approved
    requires post.title != db.posts[id].title ==>
               forall p :: p in db.posts && p != id ==> !(db.posts[p].company == post.company && db.posts[p].title == post.title)
    ensures Valid(db.(posts := db.posts[id := post]))
  {
    PostsReplace(db.posts, db.companies, id, post);
    ApplicationsKeepPosts(db.applications, db.students, db.posts, db.posts[id := post]);
    assert db.posts[id := post].Keys == db.posts.Keys;
  }

  /** Removing a post that is not approved keeps the invariant: no application refers to it. */
  lemma RemovePostKeepsValid(db: Db, id: Id)
    requires Valid(db) && id in db.posts && db.posts[id].status != PostStatus.Approved
    ensures Valid(db.(posts := db.posts - {id}))
  {
    PostsRemove(db.posts, db.companies, id);
    ApplicationsKeepPosts(db.applications, db.students, db.posts, db.posts - {id});
  }

  /** Inserting an unselected application with a CV, for an existing student and
      an approved post, with a (student, post) pair not yet taken, keeps the invariant. */
  lemma InsertApplicationKeepsValid(db: Db, app: Application)
    requires Valid(db)
    requires ApplicationConforms(app) && app.student in db.students && app.trainingPost in db.posts
    requires db.posts[app.trainingPost].status == PostStatus.Approved && !app.selectedByStudent
    requires forall a :: a in db.applications ==>
               !(db.applications[a].student == app.student && db.applications[a].trainingPost == app.trainingPost)
    ensures Valid(db.(applications := db.applications[db.nextId := app], nextId := db.nextId + 1))
  {
    var n := db.nextId;
    ApplicationsInsert(db.applications, db.students, db.posts, n, app);
    KeysBelowInsert(db.applications, n, app);
    KeysBelowGrow(db.companies, n);
    KeysBelowGrow(db.students, n);
    KeysBelowGrow(db.heads, n);
    KeysBelowGrow(db.posts, n);
  }

  /** Overwriting an application with one of the same student, post and CV
      keeps the invariant, provided it does not become a second selection. */
  lemma ReplaceApplicationKeepsValid(db: Db, id: Id, app: Application)
    requires Valid(db) && id in db.applications
    requires app.student == db.applications[id].student && app.trainingPost == db.applications[id].trainingPost
    requires app.cv == db.applications[id].cv
    requires app.selectedByStudent && !db.applications[id].selectedByStudent ==>
               forall a :: a in db.applications && a != id && db.applications[a].student == app.student
                           ==> !db.applications[a].selectedByStudent
    ensures Valid(db.(applications := db.applications[id := app]))
  {
    assert ApplicationConforms(db.applications[id]);
    ApplicationsReplace(db.applications, db.students, db.posts, id, app);
    assert db.applications[id := app].Keys == db.applications.Keys;
  }

  /** Changing a student's training status keeps the invariant. */
  lemma SetTrainingStatusKeepsValid(db: Db, id: Id, status: TrainingStatus)
    requires Valid(db) && id in db.students
    ensures Valid(db.(students := db.students[id := db.students[id].(trainingStatus := status)]))
  {
    var students' := db.students[id := db.students[id].(trainingStatus := status)];
    StudentsReplace(db.students, id, students'[id]);
    assert students'.Keys == db.students.Keys;
    ApplicationsKeepStudents(db.applications, db.students, students', db.posts);
  }

  /** Overwriting a company profile of the same user keeps the invariant. */
  lemma ReplaceCompanyKeepsValid(db: Db, id: Id, c: Company)
    requires Valid(db) && id in db.companies && c.user == db.companies[id].user
    ensures Valid(db.(companies := db.companies[id := c]))
  {
    CompaniesReplace(db.companies, id, c);
    assert db.companies[id := c].Keys == db.companies.Keys;
    PostsKeepCompanies(db.posts, db.companies, db.companies[id := c]);
  }
}
