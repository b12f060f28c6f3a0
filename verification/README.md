# Training placement workflow, in Dafny

This project models the core of a Node/Express/Mongoose back end. In it, companies advertise training posts,
department heads review those posts, and students apply and choose a placement. The model covers:

- **Training post lifecycle:** created PENDING, edited or deleted only while PENDING, reviewed once to APPROVED or
  REJECTED.
- **Application lifecycle:** a student applies, the company decides, and the student selects one approved
  application. The company, the head and the student then attach approval files, an official document, activity
  reports and a final report.
- **The student's `trainingStatus`:** NOT_STARTED, WAITING_FOR_APPROVAL, IN_TRAINING, COMPLETED.
- **The read-side filters** of the four controllers.

## Layout

- `text.dfy` (`Text`): `toUpperCase`, Mongoose's `trim`, and the decimal text of a Number. The last is used by the
  university-id regular expression.
- `schema.dfy` (`Schema`): the records, status enums, validators and defaults of `models/*.js`.
- `store.dfy` (`EntityStore`):
  - the database as five maps from record id to record, plus the next free id;
  - the invariant `Valid`. It holds the schema validators, the unique indexes, one profile per user, links
    between records, and at most one selected application per student;
  - the `findOne({ user })` profile lookups, and the creation of profiles;
  - one lemma per kind of write, stating that the write keeps `Valid`.
- `training_posts.dfy`, `department_heads.dfy`, `students.dfy`, `companies.dfy`: one pure specification function
  per controller action. Each maps a database, the caller (user id and role), the request and the time `now` to
  an `Outcome`: the new database, and `Ok(record)` or `Err(code)`. The error codes are:
  - `BadRequest` = 400, `Forbidden` = 403, `NotFound` = 404;
  - `ValidationFailed` and `DuplicateKey` = a Mongoose validation or E11000 error passed to `next`;
  - `RuntimeFault` = an exception thrown by the handler.
- `record_store.dfy` (`RecordStore.Store`): the same actions as a class whose fields are the five collections.
  Each method changes the fields step by step, as the controller does with `save`, `create`,
  `findByIdAndUpdate` and `remove`. Each is proved to leave exactly the database and to answer exactly the result
  that the action's specification function gives. `Valid` is kept.
- `workflow.dfy` (`Workflow`): properties that span several actions, the two findings below, and a full placement
  scenario from sign-up to COMPLETED.

The code deviates from an idealised workflow in four places, and the model follows the code in each:

- The company's decision never looks at the previous status.
- `applyForTraining` refuses only a post whose deadline has passed (`availableUntil < now`). The listings show only
  posts with `availableUntil > now`.
- The first approval file sets the student to WAITING_FOR_APPROVAL whatever the student's status is. So the
  training status is not monotone.
- `Student` is used in `companyController.js` but never imported (see Findings).

## Model

| member | source | states |
|---|---|---|
| Text.UpperChar | controllers/trainingPostController.js:68 | a lower-case ASCII letter maps to its upper-case letter; every other character is unchanged |
| Text.ToUpper | controllers/trainingPostController.js:68 | the result has the input's length, and each character is the upper-cased input character |
| Text.TrimStart | models/TrainingPost.js:9-13 | the result is a suffix of the input; only white space was dropped; it does not start with white space |
| Text.TrimEnd | models/TrainingPost.js:9-13 | the result is a prefix of the input; only white space was dropped; it does not end with white space |
| Text.Trim | models/TrainingPost.js:9-13 | the `trim: true` setter: leading white space removed, then trailing white space |
| Text.TrimmedEnds | models/TrainingPost.js:9-13 | a trimmed string is empty or has non-space characters at both ends |
| Text.TrimFixedPoints | models/TrainingPost.js:9-13 | trimming leaves a string unchanged exactly when it has no leading or trailing white space |
| Text.TrimIdempotent | models/TrainingPost.js:37-40 | trimming twice equals trimming once, because a trimmed string has no white space at either end |
| Text.DigitChar | models/Student.js:14-19 | a digit value below 10 renders as a character matched by `\d` |
| Text.DecimalString | models/Student.js:14-19 | the decimal text of a Number is non-empty and made only of digits |
| Text.Pow10 | models/Student.js:14-19 | 10^k is positive |
| Text.DecimalLength | models/Student.js:14-19 | a number has at most k decimal digits exactly when it is below 10^k, by induction |
| Text.Pow10Grows | models/Student.js:14-19 | 10^k is at least 10 for k >= 1 |
| Schema.ParseDepartment | models/Student.js:25-29 | a string is accepted exactly when it names one of SW, CIS, BIT, AI, CS, CYBER, and it parses to that department |
| Schema.DecidedPostStatus | controllers/departmentHeadController.js:74-76 | APPROVED or REJECTED becomes a post status that is not PENDING and has that name |
| Schema.DecidedAppStatus | controllers/companyController.js:144-146 | APPROVED or REJECTED becomes an application status that is not UNDER_REVIEW and has that name |
| Schema.UniversityIdRange | models/Student.js:10-20 | the `^\d{7}$` test on a number's text accepts exactly the numbers 1000000..9999999 |
| Schema.NewPost | controllers/trainingPostController.js:39-47 | the created post: PENDING and not reviewed, with the given company, duration, location, deadline and createdAt = now; it passes the validators exactly when the duration is 6 or 8, the trimmed title is not empty and a location is given |
| Schema.NewApplication | controllers/studentController.js:123-128 | the created application: UNDER_REVIEW, not selected, with no documents and empty file lists; it passes the validator exactly when the CV path is not empty |
| Schema.NewPostTrimmed | models/TrainingPost.js:9-13 | whatever the caller sends, a stored title and description are trimmed |
| EntityStore.CompanyOf | controllers/companyController.js:83 | `Company.findOne({ user })`: the company profile of that user if there is one, and otherwise no profile has that user |
| EntityStore.StudentOf | controllers/studentController.js:51 | `Student.findOne({ user })`: the student profile of that user if there is one, and otherwise none has that user |
| EntityStore.HeadOf | controllers/departmentHeadController.js:20 | `DepartmentHead.findOne({ user })`: the head profile of that user if there is one, and otherwise none has that user |
| EntityStore.SelectedApplicationOf | controllers/studentController.js:206-209 | `findOne({ student, selectedByStudent: true })`: the student's selected application, or proof that none is selected |
| EntityStore.CompanyUserUnique | controllers/companyController.js:83 | under the invariant, at most one company profile belongs to a user |
| EntityStore.StudentUserUnique | controllers/studentController.js:51 | under the invariant, at most one student profile belongs to a user |
| EntityStore.HeadUserUnique | controllers/departmentHeadController.js:20 | under the invariant, at most one head profile belongs to a user |
| EntityStore.SelectionUnique | controllers/studentController.js:206-213 | under the invariant, a student has at most one selected application |
| EntityStore.CompanyProfile | controllers/companyController.js:79-87 | Ok exactly for a company caller with a profile; otherwise 403 for another role and 404 for a missing profile |
| EntityStore.StudentProfile | controllers/studentController.js:47-55 | Ok exactly for a student caller with a profile; otherwise 403 for another role and 404 for a missing profile |
| EntityStore.HeadProfile | controllers/departmentHeadController.js:16-24 | Ok exactly for a head caller with a profile; otherwise 403 for another role and 404 for a missing profile |
| EntityStore.StudentProfileIgnoresStatus | controllers/studentController.js:221-222 | changing a student's training status keeps the invariant and does not change any caller's profile lookup |
| EntityStore.EmptyDbValid | models/Application.js:3-41 | the empty database satisfies every schema rule and index of `models/*.js`; no single line states this, and the cited application schema is the one whose rules refer to the other collections |
| EntityStore.RegisterStudent | Scripts/SeedStudent.js:76-83 | succeeds exactly when the id is 7 digits and unused, the name is set, the department is in the enum and the hours are >= 0; the new student carries the given user, id, name, department and hours, is NOT_STARTED, and is the only change |
| EntityStore.RegisterDepartmentHead | Scripts/SeedDepartmentHead.js:53-57 | succeeds exactly when the name is set and the department is in the enum and has no head yet; the new head is the only change |
| EntityStore.RegisterCompany | controllers/authController.js:72-80 | stores exactly the given profile under a fresh id and changes nothing else |
| EntityStore.PostsInsert | models/TrainingPost.js:52 | adding a conforming post whose (company, title) is not taken keeps the post rules and the index |
| EntityStore.PostsReplace | models/TrainingPost.js:52 | replacing a post by a conforming one keeps the rules, when a changed (company, title) is not taken |
| EntityStore.PostsRemove | models/TrainingPost.js:52 | removing a post keeps the post rules and the index |
| EntityStore.ApplicationsInsert | models/Application.js:41 | adding a new application for an approved post with an unused (student, trainingPost) pair keeps the rules |
| EntityStore.ApplicationsReplace | models/Application.js:41 | rewriting an application's fields keeps the rules, when a new selection is the student's only one |
| EntityStore.StudentsInsert | models/Student.js:10-20 | adding a conforming student with an unused user and university id keeps the student rules |
| EntityStore.StudentsReplace | models/Student.js:35-39 | rewriting a student with the same user and id keeps the student rules |
| EntityStore.HeadsInsert | models/DepartmentHead.js:13-18 | adding a head for an unused user and a department without a head keeps the head rules |
| EntityStore.CompaniesInsert | controllers/authController.js:72-80 | adding the first company profile of a user keeps one profile per user |
| EntityStore.InsertPostKeepsValid | models/TrainingPost.js:3-52 | inserting a conforming, not-yet-reviewed post with a free (company, title) keeps the whole invariant |
| EntityStore.ReplacePostKeepsValid | models/TrainingPost.js:3-52 | rewriting a post keeps the invariant, as long as an approved post stays approved |
| EntityStore.RemovePostKeepsValid | controllers/trainingPostController.js:214-219 | removing a post that is not approved keeps the invariant: no application refers to it |
| EntityStore.InsertApplicationKeepsValid | models/Application.js:3-41 | inserting an unselected application with a CV, for an approved post and a fresh (student, post) pair, keeps the invariant |
| EntityStore.ReplaceApplicationKeepsValid | models/Application.js:3-41 | rewriting an application's status, files or selection keeps the invariant |
| EntityStore.SetTrainingStatusKeepsValid | models/Student.js:35-39 | setting any training status keeps the invariant |
| EntityStore.ReplaceCompanyKeepsValid | controllers/companyController.js:58-63 | rewriting a company profile for the same user keeps the invariant |
| TrainingPosts.CreationCheck | controllers/trainingPostController.js:15-47 | 403 before 404 before the 400s for duration and date; a strictly future date is accepted; the post is PENDING, unreviewed, owned by the caller's company, with trimmed title |
| TrainingPosts.CreateTrainingPost | controllers/trainingPostController.js:10-55 | on success exactly one post is added, under a fresh id, and nothing else changes; a failure changes nothing |
| TrainingPosts.GetAllPosts | controllers/trainingPostController.js:60-90 | no filter gives every post; a filter gives the posts whose status equals the upper-cased filter, and for APPROVED only those with `availableUntil > now` |
| TrainingPosts.GetPost | controllers/trainingPostController.js:95-111 | the stored post, or 404 when the id is unknown |
| TrainingPosts.OwnedPendingPost | controllers/trainingPostController.js:121-146 | Ok exactly when the caller's company owns the post and it is PENDING; otherwise, in the controller's order: 403 for another role, 404 without a company profile, 404 for a missing post, 403 for another company's post, 400 for an owned post that is not PENDING |
| TrainingPosts.Patched | controllers/trainingPostController.js:164-172 | the update document: a truthy field replaces the stored one (title and description trimmed), a falsy or absent one keeps the stored value; company, status, review fields and createdAt are kept; updatedAt becomes now |
| TrainingPosts.PatchConforms | controllers/trainingPostController.js:163-176 | after the duration check, the updated document passes the schema validators exactly when a provided title is not blank once trimmed |
| TrainingPosts.UpdatePost | controllers/trainingPostController.js:116-183 | ownership and PENDING first; a truthy duration must be 6 or 8 and a given date must be after now; then a blank title fails validation before the (company, title) index is checked; succeeds exactly when all of these pass; absent or falsy fields keep their old values; only that post changes |
| TrainingPosts.DeletePost | controllers/trainingPostController.js:188-227 | succeeds exactly for an owned PENDING post, and then removes exactly that post |
| DepartmentHeads.GetDepartmentStudents | controllers/departmentHeadController.js:13-34 | exactly the students of the head's department |
| DepartmentHeads.GetPendingTrainingPosts | controllers/departmentHeadController.js:39-64 | exactly the PENDING posts, whatever their deadline |
| DepartmentHeads.ReviewTrainingPost | controllers/departmentHeadController.js:69-113 | 400 for a status other than APPROVED/REJECTED before the role check; only a PENDING post is reviewed; it records the status, the reviewing head and now, and nothing else changes |
| DepartmentHeads.GetPendingApplications | controllers/departmentHeadController.js:118-160 | exactly the selected applications without an official document whose student is in the head's department and WAITING_FOR_APPROVAL |
| DepartmentHeads.OfficialDocumentCheck | controllers/departmentHeadController.js:169-206 | 400 for no content, then 403/404 for the head, 404 for the application, 403 for another department, 400 unless the student waits for approval |
| DepartmentHeads.SubmitOfficialDocument | controllers/departmentHeadController.js:165-226 | on success records the document and moves the student to IN_TRAINING, without looking at the selection; exactly those two records change |
| Students.GetAvailablePosts | controllers/studentController.js:44-71 | exactly the APPROVED posts with `availableUntil > now` |
| Students.GetStudentApplications | controllers/studentController.js:141-170 | exactly the caller's applications |
| Students.OpenForApplication | controllers/studentController.js:107-110 | the availability test of an application: APPROVED and the deadline not before now |
| Students.AvailablePostsAreOpen | controllers/studentController.js:107-110 | every post in the student's listing passes the availability test of applying |
| Students.ApplyForTraining | controllers/studentController.js:76-136 | 400 without a file; the profile's 403/404; 400 below 80 hours; 404 for a missing post; 400 for a post not APPROVED or past its deadline; 400 when the student already applied for it; a validation error for an empty CV path; succeeds exactly for an APPROVED post not past its deadline (equal to now passes) that the student has not applied for; adds one UNDER_REVIEW application under the next id, and nothing else changes |
| Students.SelectionCheck | controllers/studentController.js:178-213 | 403/404 for the profile, 404 for the application, 403 for another student's, 400 unless APPROVED and nothing selected yet |
| Students.SelectApplication | controllers/studentController.js:175-230 | on success the application is selected, the student is WAITING_FOR_APPROVAL, and it is the student's only selection |
| Students.FinalReportCheck | controllers/studentController.js:239-267 | 400 without content, 403/404 for the profile, 400 unless IN_TRAINING, 404 without a selected application |
| Students.SubmitFinalReport | controllers/studentController.js:235-288 | records the report on the selected application; the student becomes COMPLETED exactly when it already has >= 2 activity reports, and otherwise stays IN_TRAINING |
| Companies.PatchedProfile | controllers/companyController.js:57-61 | each truthy field replaces the old value; the others are kept |
| Companies.UpdateProfile | controllers/companyController.js:42-71 | only the caller's profile changes, patched field by field |
| Companies.GetCompanyPosts | controllers/companyController.js:76-96 | exactly the posts of the caller's company |
| Companies.GetCompanyApplications | controllers/companyController.js:101-134 | exactly the applications whose post belongs to the caller's company |
| Companies.OwnedApplication | controllers/companyController.js:149-172 | Ok exactly when the caller's company owns the application's post; 403/404 otherwise |
| Companies.UpdateApplicationStatus | controllers/companyController.js:139-185 | 400 for a status other than APPROVED/REJECTED; sets the requested status whatever it was, and changes only status and updatedAt |
| Companies.ApprovalFileCheck | controllers/companyController.js:194-227 | 400 without content, then ownership, then 400 unless the application is APPROVED |
| Companies.SubmitApprovalFiles | controllers/companyController.js:190-249 | appends exactly one handle; the student becomes WAITING_FOR_APPROVAL exactly when it is the first file, and otherwise is untouched |
| Companies.SubmitApprovalFilesAsWritten | controllers/companyController.js:232-240 | the unbound `Student` throws after the save: the file list is as in the intended action, no student changes, and any success is the intended one |
| Companies.ActivityReportCheck | controllers/companyController.js:258-293 | 400 without content, then ownership, then 400 unless the student is IN_TRAINING |
| Companies.SubmitActivityReport | controllers/companyController.js:254-308 | appends exactly one handle to the activity reports and changes no status |
| Companies.SubmitActivityReportAsWritten | controllers/companyController.js:289 | as written, the action never succeeds and never changes the database |
| Workflow.Stage | models/Student.js:35-39 | the training states in order: NOT_STARTED 0, WAITING_FOR_APPROVAL 1, IN_TRAINING 2, COMPLETED 3 |
| Workflow.ReviewAtMostOnce | controllers/departmentHeadController.js:97-99 | after a successful review, every further review of that post fails and changes nothing |
| Workflow.ReviewFreezesPost | controllers/trainingPostController.js:144-146 | after a review, the owning company can neither update nor delete the post |
| Workflow.CreateThenDeleteRestores | controllers/trainingPostController.js:219 | deleting a post just created succeeds and restores every collection |
| Workflow.UpperApproved | controllers/trainingPostController.js:68 | the filter `approved` upper-cases to APPROVED |
| Workflow.UpperPending | controllers/trainingPostController.js:68 | the filter `Pending` upper-cases to PENDING |
| Workflow.AvailableIsApprovedListing | controllers/studentController.js:59-61 | the student's available posts are exactly the public listing filtered by `approved` |
| Workflow.PendingIsPendingListing | controllers/departmentHeadController.js:53 | the head's pending posts are exactly the public listing filtered by `Pending` |
| Workflow.ApplyAtDeadline | controllers/studentController.js:108 | a post whose deadline equals now is missing from the listing, yet applying for it succeeds |
| Workflow.SecondApplyFails | controllers/studentController.js:113-120 | applying again for the same post fails with 400 and stores nothing |
| Workflow.SecondSelectFails | controllers/studentController.js:206-213 | after a selection, every further selection by that student fails |
| Workflow.PendingApplicationsDistinctStudents | controllers/departmentHeadController.js:140-143 | the pending applications name each student at most once |
| Workflow.DecisionOverridesSelection | controllers/companyController.js:175-177 | a selected application can still be REJECTED by the company, and stays selected |
| Workflow.ApprovalFileRegressesTraining | controllers/companyController.js:237-241 | the first approval file moves a student back from IN_TRAINING or COMPLETED, so the status is not monotone |
| Workflow.FinalReportNotRetroactive | controllers/studentController.js:277-280 | a final report sent with one activity report leaves IN_TRAINING; a later second activity report does not complete the training; a later final report does |
| Workflow.FirstApprovalFileFailsAsWritten | controllers/companyController.js:232-240 | as written, the first approval file is stored but the client gets an error and the student does not move; the intended action succeeds and moves it |
| Workflow.ActivityReportNeverStoredAsWritten | controllers/companyController.js:289 | as written, an allowed activity report fails; the intended action stores it |
| Workflow.CompanySignsUp | controllers/authController.js:72-80 | scenario: a company profile in an empty store |
| Workflow.StudentSignsUp | Scripts/SeedStudent.js:76-83 | scenario: a student of SW with 90 hours joins |
| Workflow.HeadSignsUp | Scripts/SeedDepartmentHead.js:53-57 | scenario: the SW head joins |
| Workflow.CompanyPosts | controllers/trainingPostController.js:39-47 | scenario: the company's post is stored PENDING under the next id |
| Workflow.HeadApprovesPost | controllers/departmentHeadController.js:101-105 | scenario: the head approves it |
| Workflow.StudentApplies | controllers/studentController.js:123-128 | scenario: the student's application is UNDER_REVIEW |
| Workflow.CompanyAccepts | controllers/companyController.js:175-177 | scenario: the company approves the application |
| Workflow.StudentSelects | controllers/studentController.js:216-222 | scenario: the student selects it and waits for approval |
| Workflow.CompanySendsApprovalFile | controllers/companyController.js:232-241 | scenario: the first approval file is stored |
| Workflow.HeadIssuesDocument | controllers/departmentHeadController.js:211-218 | scenario: the official document puts the student IN_TRAINING |
| Workflow.CompanyReportsActivity | controllers/companyController.js:298-300 | scenario: each activity report adds one handle and keeps IN_TRAINING |
| Workflow.StudentCompletes | controllers/studentController.js:272-280 | scenario: after two activity reports the final report completes the training |
| RecordStore.Store.constructor | models/Application.js:3-41 | an empty store that satisfies the invariant collected from the schemas of `models/*.js`; no single line states this |
| RecordStore.Store.RegisterCompany | controllers/authController.js:72-80 | `Company.create` in place: the new fields are exactly those of `EntityStore.RegisterCompany` |
| RecordStore.Store.RegisterStudent | Scripts/SeedStudent.js:76-83 | `Student.create` in place, equal to `EntityStore.RegisterStudent`; the invariant is kept |
| RecordStore.Store.RegisterDepartmentHead | Scripts/SeedDepartmentHead.js:53-57 | `new DepartmentHead(...).save()` in place, equal to `EntityStore.RegisterDepartmentHead` |
| RecordStore.Store.CreateTrainingPost | controllers/trainingPostController.js:10-55 | the action in place: the new fields and the answer are those of `TrainingPosts.CreateTrainingPost` |
| RecordStore.Store.InsertPost | controllers/trainingPostController.js:39-47 | `TrainingPost.create`: only the posts and the next id change, and the invariant is kept |
| RecordStore.Store.UpdatePost | controllers/trainingPostController.js:116-183 | the action in place, equal to `TrainingPosts.UpdatePost` |
| RecordStore.Store.DeletePost | controllers/trainingPostController.js:188-227 | the action in place, equal to `TrainingPosts.DeletePost` |
| RecordStore.Store.ReviewTrainingPost | controllers/departmentHeadController.js:69-113 | the action in place, equal to `DepartmentHeads.ReviewTrainingPost` |
| RecordStore.Store.SubmitOfficialDocument | controllers/departmentHeadController.js:165-226 | the action in place, equal to `DepartmentHeads.SubmitOfficialDocument` |
| RecordStore.Store.ApplyForTraining | controllers/studentController.js:76-136 | the action in place, equal to `Students.ApplyForTraining` |
| RecordStore.Store.SelectApplication | controllers/studentController.js:175-230 | the two saves in place, equal to `Students.SelectApplication` |
| RecordStore.Store.SubmitFinalReport | controllers/studentController.js:235-288 | the saves in place, equal to `Students.SubmitFinalReport` |
| RecordStore.Store.UpdateProfile | controllers/companyController.js:42-71 | the action in place, equal to `Companies.UpdateProfile` |
| RecordStore.Store.UpdateApplicationStatus | controllers/companyController.js:139-185 | the action in place, equal to `Companies.UpdateApplicationStatus` |
| RecordStore.Store.SubmitApprovalFiles | controllers/companyController.js:190-249 | the push and the saves in place, equal to the intended `Companies.SubmitApprovalFiles` |
| RecordStore.Store.SubmitActivityReport | controllers/companyController.js:254-308 | the push in place, equal to the intended `Companies.SubmitActivityReport` |
| RecordStore.CreationOutcome | controllers/trainingPostController.js:39-47 | a successful creation adds the checked post under the next id and nothing else |
| RecordStore.SelectionOutcome | controllers/studentController.js:216-222 | a successful selection changes exactly that application and that student |
| RecordStore.FinalReportOutcome | controllers/studentController.js:272-280 | a successful final report changes exactly that application, and that student when two activity reports are in |

## Left out

- Authentication: login, passwords, JWT cookies, the role middleware and the Joi request schemas. The caller is a
  user id with a role, and each action's own role check is modelled.
- The ministry verification, the national-id format and the e-mail check of company registration. A company profile
  enters the store through `EntityStore.RegisterCompany` only.
- The rest of `models/Company.js`, and `getCompanies`/`getCompany`, which are plain reads of company profiles.
- File uploads (multer storage, file filter, size limit) and the contents of every file. A CV and every generated
  path are opaque handles passed in as parameters, because `Date.now()`-based names cannot be modelled as values.
- Time is an integer `now` passed in; `Date` parsing and the clock are not modelled.
- The logger, `ApiResponse`, the error handler, `populate`, projections, and the sort order of listings. Listings
  are sets of ids.
- Record ids are consecutive numbers from one counter, not ObjectIds. No id is ever reused.
- Concurrency: actions run one at a time. The window between a check and a write (for example two racing selects)
  is not modelled.
- EntityStore.RegisterStudent, EntityStore.RegisterDepartmentHead and EntityStore.RegisterCompany require that
  the user has no profile of that kind yet. The sign-up code creates a new user each time, so this holds there and
  is not checked again.
- `post.remove()`, `save()` and `findByIdAndUpdate` are assumed to succeed. Database failures are not modelled.
- Text.ToUpper: upper-cases ASCII letters only; non-ASCII characters (for example ı, ſ, ß) are not upper-cased, so a status query such as `pendıng` matches nothing in the model while `toUpperCase` turns it into PENDING.
- Schema.ParseDepartment: parses only the six exact department names; Mongoose enum casting does nothing more.
- `getAllPosts` with a status that is not one of the three names returns nothing, as the query does; no error is
  modelled because the code raises none.

## Findings

| source | as written | input that shows it | evidently intended | confidence | as-written member | corrected member |
|---|---|---|---|---|---|---|
| controllers/companyController.js:238 | `Student.findById` uses `Student`, which lines 1-7 never import, so the first approval file throws a ReferenceError after the application was saved | a company submits the first approval file for its approved application | the student is set to WAITING_FOR_APPROVAL and the client gets 200 | not executed | Workflow.FirstApprovalFileFailsAsWritten | Companies.SubmitApprovalFiles |
| controllers/companyController.js:289 | the same unbound `Student` throws before the report is pushed, so no activity report is ever stored | a company submits an activity report for its own application | the report is appended when the student is IN_TRAINING | not executed | Workflow.ActivityReportNeverStoredAsWritten | Companies.SubmitActivityReport |
