# School portal: authorization and data scoping

This project models the authorization and data-scoping core of a multi-tenant
school portal. One deployment serves several schools, and every caller holds
one of six roles (super-admin, school admin, academic admin, faculty, student,
parent).

The model covers:

- **Session gates** (`AuthGates`): `requireAuth`, `redirectIfAuthed` and
  `requireRoles`, as decisions over an optional session identity.
- **Directory listings** (`Directories`): the faculty, student and admin
  listings. Each one builds a `where` record from the caller and the query
  string, filters and orders a table, and renders it as a page or exports it
  as CSV rows.
- **Review creation** (`Reviews`): a `Store` class holding the tables as
  sequence fields. It has one creation method per review handler, and each
  method runs the handler's gates in order and appends at most one row.
- **Dashboard** (`Dashboard`): dispatch on the caller's role, school-scoped
  counts, per-school and per-faculty mean ratings, and the `|| null`
  coercion of a mean.

The supporting modules are:

- `Domain`: the records and an immutable snapshot `Db` of the tables. It
  also holds `findUnique` and `findMany` as `FindFirst` and `Filter`.
- `Text`: ASCII case-insensitive substring search and code-point string
  order.
- `Ordering`: an insertion sort by a total preorder, standing in for
  `orderBy`.

Behaviour of the code worth stating:

- Faculty ratings are not clamped to 1..5. A missing, empty or non-numeric
  rating is stored as 0.
- A student rating of 0 is stored as 0 when it comes from a form (the
  string "0" is truthy) and as null when it comes as a JSON number.
- Comments are cut at 500 UTF-16 code units, so a character outside the
  Basic Multilingual Plane counts twice.
- The student search also matches the roll number.
- The faculty-review handler looks up its target before it checks the
  caller's role.
- The student-review handler does not set `isPrivate`; a stored row takes
  the column default.
- A teacher may review any existing student, whether or not the teacher
  teaches that student.

## Model

| member | source | states |
|---|---|---|
| AuthGates.RequireAuth | src/middleware/auth.js:1-6 | passes exactly when a session user exists, otherwise redirects to /login |
| AuthGates.RedirectIfAuthed | src/middleware/auth.js:8-13 | passes exactly when no session user exists, otherwise redirects to /dashboard |
| AuthGates.RequireRoles | src/middleware/auth.js:15-25 | no session user: redirect to /login; passes exactly when the role is listed; a listed-out signed-in caller gets 403 Forbidden |
| AuthGates.GatesComplementary | src/middleware/auth.js:1-13 | exactly one of requireAuth and redirectIfAuthed lets a request through |
| AuthGates.EmptyRoleListRejectsAll | src/middleware/auth.js:15-25 | with no roles listed, every signed-in caller gets 403 and every anonymous one a login redirect |
| AuthGates.RequireRolesImpliesAuth | src/middleware/auth.js:15-25 | whatever requireRoles lets through, requireAuth would too |
| Text.LowerAll | src/routes/directories.js:18 | case folding keeps the length and lowers each character |
| Text.ContainsIffOccurs | src/routes/directories.js:18 | the substring scan succeeds exactly when the needle occurs at some position |
| Text.StrLeTotal | src/routes/directories.js:29 | any two strings are comparable |
| Text.StrLeTransitive | src/routes/directories.js:29 | string order is transitive |
| Text.StrLeAntisymmetric | src/routes/directories.js:29 | strings ordered both ways are equal |
| Ordering.Insert | src/routes/directories.js:29 | inserting into a sorted sequence keeps it sorted and adds exactly that element |
| Ordering.Sort | src/routes/directories.js:29 | the result is sorted and a permutation of the input |
| Domain.FindFirst | src/routes/reviews.js:14-15 | a found row is in the table and matches; when none is found no row matches |
| Domain.Filter | src/routes/directories.js:26-30 | keeps exactly the matching rows, each as often as stored, and no more rows than stored |
| Domain.FilterEmpty | src/routes/directories.js:60-61 | nothing is selected exactly when no row meets the condition |
| Domain.FilterSingleton | src/routes/directories.js:26-30 | a one-row table keeps its row exactly when the row matches |
| Domain.FilterAppend | src/routes/directories.js:26-30 | filtering a concatenation filters each part and keeps the parts in order; with FilterSingleton this fixes the stored order |
| Domain.FilterAppendNone | src/routes/dashboard.js:45-49 | appending rows that do not match leaves the selection unchanged |
| Domain.FilterAgree | src/routes/dashboard.js:80-82 | two conditions that agree on every row select the same rows |
| Domain.Count | src/routes/dashboard.js:45-49 | `count({ where })` is at most the table size and zero exactly when no row matches |
| Domain.SectionsOf | src/routes/directories.js:60 | the section list has one entry per assignment, in order |
| Domain.OwnSections | src/routes/directories.js:60-61 | a section is in the faculty member's list exactly when it teaches there |
| Directories.CallerScope | src/routes/directories.js:13-17 | a row's school is in scope exactly when it is the session's school for a non-super caller, and for a super-admin when no schoolId is given or it is that one |
| Directories.FacultyWhereOf | src/routes/directories.js:9-24 | the school entry is the caller's scope; each of q, subject and grade sets its own entry exactly when given, to the value given |
| Directories.StudentWhereOf | src/routes/directories.js:50-76 | a faculty caller is held to its profile's school and its own sections, whatever schoolId the query gives; other callers get the caller's scope and no section list; q, grade and section each set their own entry exactly when given |
| Directories.AdminWhereOf | src/routes/directories.js:103-112 | the school entry is the caller's scope; q sets the name entry exactly when given |
| Directories.FacultyDirectory | src/routes/directories.js:26-46 | format=csv gives the listing as CSV rows, anything else the listing as a page |
| Directories.StudentDirectory | src/routes/directories.js:78-99 | the same for students |
| Directories.AdminDirectory | src/routes/directories.js:114-125 | the same for admins |
| Directories.FacultyByNameIsPreorder | src/routes/directories.js:29 | name order of faculty is total and transitive |
| Directories.FacultyListing | src/routes/directories.js:8-30 | rows are exactly the faculty matching the where record, each as often as stored, sorted by name |
| Directories.StudentByClassAndRollIsPreorder | src/routes/directories.js:81 | (grade, section, roll number) order is total and transitive |
| Directories.StudentListing | src/routes/directories.js:49-82 | rows are exactly the students matching the where record, each as often as stored, sorted by grade, section, roll number |
| Directories.AdminByNameIsPreorder | src/routes/directories.js:114 | name order of admins is total and transitive |
| Directories.AdminListing | src/routes/directories.js:102-114 | rows are exactly the admins matching the where record, each as often as stored, sorted by name |
| Directories.FacultyCsv | src/routes/directories.js:32-40 | one CSV row per faculty row: name, designation, qualifications, years of experience |
| Directories.StudentCsv | src/routes/directories.js:84-93 | one CSV row per student row: name, roll number, grade, section |
| Directories.AdminCsv | src/routes/directories.js:116-119 | one CSV row per admin row: name, designation |
| Directories.FacultyScoping | src/routes/directories.js:13-17 | non-super callers see only their own school's faculty; a super-admin's schoolId restricts, its absence leaves all schools |
| Directories.AdminScoping | src/routes/directories.js:107-111 | the same tenant isolation for admin profiles |
| Directories.StudentScoping | src/routes/directories.js:63-67 | the same tenant isolation for non-faculty callers of the student listing |
| Directories.SectionsOfOwnAssignments | src/routes/directories.js:60-61 | enrolment in one of the listed sections is the same as being taught by the faculty member |
| Directories.FacultySeesOwnSections | src/routes/directories.js:54-62 | before search filters, a faculty caller sees exactly its school's students enrolled in a section it teaches |
| Directories.NoAssignmentsNoStudents | src/routes/directories.js:60-61 | a faculty member without assignments sees no students |
| Directories.FacultyFiltersNarrow | src/routes/directories.js:18-24 | a faculty row is listed exactly when it is listed without filters and meets each filter given |
| Directories.StudentFiltersNarrow | src/routes/directories.js:69-76 | the same for students; q matches the name or the roll number case-insensitively |
| Directories.AdminFiltersNarrow | src/routes/directories.js:112 | the same for admins |
| Directories.FacultyCsvFollowsPage | src/routes/directories.js:26-44 | the CSV export is the page's list, row for row and in order, projected |
| Directories.StudentCsvFollowsPage | src/routes/directories.js:78-96 | the same for students |
| Directories.AdminCsvFollowsPage | src/routes/directories.js:114-122 | the same for admins |
| Reviews.NormalComment | src/routes/reviews.js:21 | null exactly for an absent or empty comment; otherwise a non-empty prefix of at most 500 UTF-16 code units, the whole comment when it fits |
| Reviews.StudentRating | src/routes/reviews.js:63 | null exactly for an absent, null or empty rating or the JSON number 0; otherwise the number given, so the string "0" gives 0 |
| Reviews.FacultyRating | src/routes/reviews.js:20 | a numeric rating, from a form or from JSON, is stored as given with no clamping; anything else becomes 0 |
| Reviews.RatingReadings | src/routes/reviews.js:20-63 | where the student handler stores a number it is the one the faculty handler stores, and where it stores null the faculty handler stores 0 |
| Reviews.FacultyReviewOutcome | src/routes/reviews.js:14-34 | unknown target: 404 first; other roles: 403 Not allowed; a missing own profile: 403; otherwise a row with the target's school, the path's faculty id, and exactly one author taken from the caller's own profile |
| Reviews.StudentReviewOutcome | src/routes/reviews.js:51-66 | 403 for a non-faculty caller, then 403 with no own profile, then 404 for an unknown student, then 500 for a non-numeric rating; otherwise the row carries the student's school and the caller's own faculty id |
| Reviews.NoDeduplication | src/routes/reviews.js:36 | neither decision depends on the reviews already stored |
| Reviews.StudentReviewIgnoresTeaching | src/routes/reviews.js:51-58 | the student-review decision does not depend on assignments or enrolments |
| Reviews.Store.CreateFacultyReview | src/routes/reviews.js:8-37 | returns the decision; on success appends exactly that row to the faculty reviews, on refusal stores nothing, and no other table changes |
| Reviews.Store.CreateStudentReview | src/routes/reviews.js:45-67 | the same for student reviews |
| Dashboard.Mean | src/routes/dashboard.js:52-55 | the mean is null exactly when there are no values |
| Dashboard.MeanTimesCount | src/routes/dashboard.js:52-55 | the mean times the number of values is their sum |
| Dashboard.OrNull | src/routes/dashboard.js:64-65 | `|| null` makes a null or zero mean null and keeps any other |
| Dashboard.MeanOrNull | src/routes/dashboard.js:64-65 | `mean || null` is null exactly when there are no values or they sum to 0 |
| Dashboard.MeanBounds | src/routes/dashboard.js:52-55 | a mean lies between the least and the greatest value |
| Dashboard.SchoolFacultyRatingsEmpty | src/routes/dashboard.js:52-55 | a school's faculty rating list is empty exactly when it has no faculty reviews |
| Dashboard.SchoolStudentRatingsEmpty | src/routes/dashboard.js:56-59 | a school's student rating list is empty exactly when none of its student reviews has a rating |
| Dashboard.ReceivedRatingsEmpty | src/routes/dashboard.js:83-86 | a faculty member's rating list is empty exactly when nobody reviewed it |
| Dashboard.SchoolFacultyAverage | src/routes/dashboard.js:52-55 | facultyAvg is never 0 and is only non-null for a school with faculty reviews; FacultyAverageMeaning states it fully |
| Dashboard.SchoolStudentAverage | src/routes/dashboard.js:56-59 | studentAvg is never 0 and is only non-null for a school with rated student reviews; StudentAverageMeaning states it fully |
| Dashboard.ReceivedAverage | src/routes/dashboard.js:83-86 | avgRating is never 0 and is only non-null for a reviewed faculty member; ReceivedAverageMeaning states it fully |
| Dashboard.GroupTotals | src/routes/dashboard.js:26-29 | every group holds at least one and at most all of the reviews; GroupTotalsCorrect states its contents |
| Dashboard.GroupTotalsCorrect | src/routes/dashboard.js:26-29 | the group-by has a key exactly for each reviewed school, holding the sum and count of its ratings |
| Dashboard.MapRatings | src/routes/dashboard.js:26-30 | a key exactly for each school with a faculty review, mapped to the mean of that school's ratings |
| Dashboard.CountsFor | src/routes/dashboard.js:44-51 | each of the five counts is zero exactly when its table has no row of the school |
| Dashboard.StudentsCount | src/routes/dashboard.js:80-82 | at most the number of enrolments, and zero exactly when no enrolment is in one of the faculty member's sections |
| Dashboard.CountsIgnoreOtherSchools | src/routes/dashboard.js:45-51 | adding rows of other schools to the counted tables changes none of a school's counts |
| Dashboard.StudentsCountIsTaughtEnrollments | src/routes/dashboard.js:80-82 | studentsCount is the number of enrolments in sections the faculty member teaches, each counted once |
| Dashboard.SchoolIdLeIsPreorder | src/routes/dashboard.js:13 | id order of schools is total and transitive |
| Dashboard.Summarize | src/routes/dashboard.js:14-24 | each school is paired with its own counts, keeping the given schools in order |
| Dashboard.SchoolsOf | src/routes/dashboard.js:12-25 | lists the school of each summary, position by position |
| Dashboard.SchoolSummaries | src/routes/dashboard.js:12-25 | the stored schools as a permutation, in ascending id order, each with its own counts |
| Dashboard.SuperAdminDashboard | src/routes/dashboard.js:11-39 | a super-admin gets every stored school in id order with its counts, and a rating map keyed exactly by the reviewed schools, holding their means |
| Dashboard.AdminDashboard | src/routes/dashboard.js:41-70 | an admin gets its own school's record, counts and averages |
| Dashboard.FacultyAverageMeaning | src/routes/dashboard.js:52-64 | facultyAvg is null exactly when the school has no faculty reviews or they sum to 0, and otherwise is their mean |
| Dashboard.StudentAverageMeaning | src/routes/dashboard.js:56-65 | studentAvg averages only the non-null ratings and is null exactly when there are none or they sum to 0 |
| Dashboard.FacultyAverageInRange | src/routes/dashboard.js:52-64 | with ratings in 1..5, facultyAvg is null only for a school without reviews and otherwise lies in 1..5 |
| Dashboard.ReceivedAverageMeaning | src/routes/dashboard.js:83-91 | avgRating is null exactly when nobody reviewed the faculty member or the ratings sum to 0, and otherwise is their mean |
| Dashboard.FacultyDashboard | src/routes/dashboard.js:72-94 | a faculty caller gets its own profile, its received reviews, the enrolments it teaches and its average |
| Dashboard.RecordOf | src/routes/dashboard.js:97-104 | a student's record holds exactly that student's enrolments and the reviews it received |
| Dashboard.StudentAndParentDashboard | src/routes/dashboard.js:96-123 | a student is shown its own record whenever it has a profile; a parent is shown its own profile and, exactly when the linked student exists, that student's record |
| Dashboard.DashboardResponse | src/routes/dashboard.js:7-130 | a super-admin always gets a page; a rendered page is the super-admin, admin, faculty, student or parent view exactly for that role |
| Dashboard.RoleDispatch | src/routes/dashboard.js:41-129 | an unknown role gets 403 Unsupported role; a non-super caller without a school, or a faculty caller without a profile, gets 500; no other refusal exists |

## Left out

- Session transport, sign-in (`src/routes/auth.js`), password hashing, server wiring (`src/server.js`, `src/routes/index.js`, `src/prisma.js`) and test-data seeding (`prisma/seed.js`) are not part of this model. The session is a parameter.
- Template rendering, the `redirect('back')` after a review, response headers and attachment names are not modelled. A handler's result is the data it would render, or a status with its text.
- The CSV export is modelled as projected rows. Byte-level formatting is not modelled.
- The eager-loaded relations (`include`) of the listings and dashboard views are not modelled beyond the rows they select. Term results on the student and parent dashboard are not modelled.
- Reviews.StudentRating: a JSON rating that is a boolean, an array or an object is not modelled. Forms and JSON bodies are modelled with string, null and number ratings only.
- Reviews.NormalComment: a comment that is not a string in a JSON body is not modelled. An array would be cut by its own `slice`; any other value makes the handler fail with 500.
- Domain.StudentReview: the `isPrivate` column is not modelled. The handler never sets it, so a stored row takes the column default.
- Reviews.FacultyRating: integers outside the database's Int range, and integers beyond 2^53 that `Number()` rounds, are not modelled. In the source the first make `create` or `findUnique` fail with 500, and the second are stored rounded. The same holds for the student rating and for path and query ids, which the model treats as unbounded integers.
- Query and path parameters are integers or absent. `Number(...)` of a non-numeric query parameter or path id (NaN) is not modelled. Non-integer numbers are not modelled either: a body rating is an integer, empty, absent or not numeric.
- Dashboard.Mean: Prisma's floating-point average is modelled as an exact rational mean.
- Dashboard.MapRatings: keys are school ids rather than their decimal strings. `String` is injective on integers, so the key set corresponds one to one.
- Text.ContainsInsensitive: case folding is ASCII only. The database's Unicode case-insensitive match is not modelled.
- Ordering.Sort: string columns are ordered by code point. The database collation is not modelled, and neither is the relative order of rows that compare equal.
- Directories.StudentListing: a faculty caller's own profile is a precondition. Without it the handler fails on a null dereference outside any error handler, and that failure is not modelled.
- Directories.FacultyListing: a non-super caller whose session has no school gets a where record with a null school, which the model answers with no faculty or student rows. The database client may reject a null filter on a required column instead; that is not modelled.
- Generated ids and creation timestamps of review rows are not modelled. Database constraint failures other than a non-numeric student rating are not modelled either.
- Concurrent requests are not modelled. Every handler is one sequential step over the store.
