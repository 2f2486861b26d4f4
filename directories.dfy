/** The directory listings `/directory/faculty`, `/directory/students` and
    `/directory/admins`. Each handler builds a `where` record from the caller's
    identity and the query string, lets the database filter and order the
    table, and either renders the rows or exports them as CSV rows. */
module Directories {
  import opened Domain
  import opened Text
  import opened Ordering

  /** The query string. An empty string stands for a parameter that is absent
      or empty (the handlers test each with JavaScript truthiness); a numeric
      parameter holds `Number(...)` of a present one. */
  datatype DirectoryQuery = DirectoryQuery(
    q: string, subject: string, grade: Option<int>, section: string,
    schoolId: Option<int>, format: string)

  /** The query without its search filters: only the school and the format remain. */
  function Unfiltered(query: DirectoryQuery): DirectoryQuery {
    query.(q := "", subject := "", grade := None, section := "")
  }

  /** The `schoolId` entry of a `where` record: left out (every school), or
      set to a value, which the session may hold as null. */
  datatype SchoolScope = AnySchool | SchoolIs(id: Option<Id>)

  predicate InScope(scope: SchoolScope, rowSchool: Option<Id>) {
    scope.AnySchool? || scope.id == rowSchool
  }

  /** The scope shared by the faculty and admin listings and by non-faculty
      callers of the student listing: a caller other than a super-admin is
      held to the school in its session, whatever the query asks; a
      super-admin may name a school. */
  function CallerScope(user: Identity, requested: Option<int>): (scope: SchoolScope)
    ensures forall row :: InScope(scope, row) <==>
      if user.role.SuperAdmin? then requested.None? || row == requested else row == user.schoolId
  {
    if !user.role.SuperAdmin? then SchoolIs(user.schoolId)
    else if requested.Some? then SchoolIs(requested)
    else AnySchool
  }

  // ---------------------------------------------------------------- faculty

  datatype FacultyWhere = FacultyWhere(
    school: SchoolScope, name: Option<string>, subject: Option<string>, grade: Option<int>)

  /** The `where` of the faculty listing, one conditional assignment at a time. */
  function FacultyWhereOf(user: Identity, query: DirectoryQuery): (w: FacultyWhere)
    ensures w.school == CallerScope(user, query.schoolId)
    ensures w.name.Some? <==> query.q != ""
    ensures w.name.Some? ==> w.name.value == query.q
    ensures w.subject.Some? <==> query.subject != ""
    ensures w.subject.Some? ==> w.subject.value == query.subject
    ensures w.grade == query.grade
  {
    var w := FacultyWhere(CallerScope(user, query.schoolId), None, None, None);
    var w := if query.q != "" then w.(name := Some(query.q)) else w;
    var w := if query.subject != "" then w.(subject := Some(query.subject)) else w;
    if query.grade.Some? then w.(grade := query.grade) else w
  }

  /** The faculty member is qualified for some subject whose name contains `needle`. */
  predicate HasSubjectLike(db: Db, facultyId: Id, needle: string) {
    exists fs, s :: fs in db.facultySubjects && s in db.subjects &&
      fs.facultyId == facultyId && s.id == fs.subjectId && ContainsInsensitive(s.name, needle)
  }

  /** The faculty member has some teaching assignment in a class of `grade`. */
  predicate TeachesGrade(db: Db, facultyId: Id, grade: int) {
    exists a, c :: a in db.assignments && c in db.classSections &&
      a.facultyId == facultyId && c.id == a.classSectionId && c.grade == grade
  }

  /** The search part of the faculty `where`: name, subject and grade. */
  predicate FacultySearchMatches(db: Db, w: FacultyWhere, f: FacultyProfile) {
    && (w.name.Some? ==> ContainsInsensitive(f.name, w.name.value))
    && (w.subject.Some? ==> HasSubjectLike(db, f.id, w.subject.value))
    && (w.grade.Some? ==> TeachesGrade(db, f.id, w.grade.value))
  }

  predicate FacultyMatches(db: Db, w: FacultyWhere, f: FacultyProfile) {
    InScope(w.school, Some(f.schoolId)) && FacultySearchMatches(db, w, f)
  }

  /** `orderBy: { name: 'asc' }` for faculty rows. */
  predicate FacultyByName(a: FacultyProfile, b: FacultyProfile) {
    StrLe(a.name, b.name)
  }

  lemma FacultyByNameIsPreorder()
    ensures TotalPreorder(FacultyByName)
  {
    forall a: FacultyProfile, b: FacultyProfile ensures FacultyByName(a, b) || FacultyByName(b, a) {
      StrLeTotal(a.name, b.name);
    }
    forall a: FacultyProfile, b: FacultyProfile, c: FacultyProfile
      | FacultyByName(a, b) && FacultyByName(b, c)
      ensures FacultyByName(a, c)
    {
      StrLeTransitive(a.name, b.name, c.name);
    }
  }

  /** The rows the faculty listing shows, in the order it shows them. */
  function FacultyListing(db: Db, user: Identity, query: DirectoryQuery): (r: seq<FacultyProfile>)
    ensures SortedBy(r, FacultyByName)
    ensures forall f :: f in r <==> f in db.faculty && FacultyMatches(db, FacultyWhereOf(user, query), f)
    ensures forall f :: multiset(r)[f] == if FacultyMatches(db, FacultyWhereOf(user, query), f) then multiset(db.faculty)[f] else 0
  {
    var w := FacultyWhereOf(user, query);
    FacultyByNameIsPreorder();
    var kept := Filter(db.faculty, (f: FacultyProfile) => FacultyMatches(db, w, f));
    var r := Sort(kept, FacultyByName);
    forall f
      ensures f in r <==> f in db.faculty && FacultyMatches(db, w, f)
      ensures multiset(r)[f] == if FacultyMatches(db, w, f) then multiset(db.faculty)[f] else 0
    {
      assert multiset(r)[f] == multiset(kept)[f];
      assert f in r <==> f in kept;
    }
    r
  }

  // --------------------------------------------------------------- students

  datatype StudentWhere = StudentWhere(
    school: SchoolScope, inSections: Option<seq<Id>>, text: Option<string>,
    grade: Option<int>, section: Option<string>)

  /** A faculty caller's own profile must exist: the handler dereferences it. */
  predicate HasOwnProfile(db: Db, user: Identity) {
    user.role.Faculty? ==> FacultyByUser(db, user.id).Some?
  }

  /** The `where` of the student listing. A faculty caller is held to the
      sections it teaches and to its profile's school; other callers are
      scoped as in the other listings. */
  function StudentWhereOf(db: Db, user: Identity, query: DirectoryQuery): (w: StudentWhere)
    requires HasOwnProfile(db, user)
    ensures user.role.Faculty? ==>
      var f := FacultyByUser(db, user.id).value;
      w.school == SchoolIs(Some(f.schoolId)) && w.inSections == Some(SectionsOf(AssignmentsOf(db, f.id)))
    ensures !user.role.Faculty? ==> w.school == CallerScope(user, query.schoolId) && w.inSections.None?
    ensures w.text.Some? <==> query.q != ""
    ensures w.text.Some? ==> w.text.value == query.q
    ensures w.grade == query.grade
    ensures w.section.Some? <==> query.section != ""
    ensures w.section.Some? ==> w.section.value == query.section
  {
    var w := StudentWhere(AnySchool, None, None, None, None);
    var w :=
      if user.role.Faculty? then
        var f := FacultyByUser(db, user.id).value;
        w.(inSections := Some(SectionsOf(AssignmentsOf(db, f.id))), school := SchoolIs(Some(f.schoolId)))
      else w.(school := CallerScope(user, query.schoolId));
    var w := if query.q != "" then w.(text := Some(query.q)) else w;
    var w := if query.grade.Some? then w.(grade := query.grade) else w;
    if query.section != "" then w.(section := Some(query.section)) else w
  }

  predicate EnrolledInAny(db: Db, studentId: Id, sections: seq<Id>) {
    exists e :: e in db.enrollments && e.studentId == studentId && e.classSectionId in sections
  }

  /** The student `q` filter: the name or the roll number contains it. */
  predicate NameOrRollLike(s: StudentProfile, needle: string) {
    ContainsInsensitive(s.name, needle) || ContainsInsensitive(s.rollNumber, needle)
  }

  predicate StudentSearchMatches(w: StudentWhere, s: StudentProfile) {
    && (w.text.Some? ==> NameOrRollLike(s, w.text.value))
    && (w.grade.Some? ==> s.grade == w.grade.value)
    && (w.section.Some? ==> s.section == w.section.value)
  }

  predicate StudentMatches(db: Db, w: StudentWhere, s: StudentProfile) {
    && InScope(w.school, Some(s.schoolId))
    && (w.inSections.Some? ==> EnrolledInAny(db, s.id, w.inSections.value))
    && StudentSearchMatches(w, s)
  }

  /** `orderBy: [{ grade: 'asc' }, { section: 'asc' }, { rollNumber: 'asc' }]`. */
  predicate StudentByClassAndRoll(a: StudentProfile, b: StudentProfile) {
    || a.grade < b.grade
    || (a.grade == b.grade && StrLt(a.section, b.section))
    || (a.grade == b.grade && a.section == b.section && StrLe(a.rollNumber, b.rollNumber))
  }

  lemma StudentByClassAndRollIsPreorder()
    ensures TotalPreorder(StudentByClassAndRoll)
  {
    forall a: StudentProfile, b: StudentProfile
      ensures StudentByClassAndRoll(a, b) || StudentByClassAndRoll(b, a)
    {
      StrLeTotal(a.section, b.section);
      StrLeTotal(a.rollNumber, b.rollNumber);
    }
    forall a: StudentProfile, b: StudentProfile, c: StudentProfile
      | StudentByClassAndRoll(a, b) && StudentByClassAndRoll(b, c)
      ensures StudentByClassAndRoll(a, c)
    {
      if a.grade == b.grade == c.grade {
        if StrLt(a.section, b.section) && StrLt(b.section, c.section) {
          StrLeTransitive(a.section, b.section, c.section);
          if a.section == c.section {
            StrLeAntisymmetric(b.section, c.section);
          }
        } else if a.section == b.section == c.section {
          StrLeTransitive(a.rollNumber, b.rollNumber, c.rollNumber);
        }
      }
    }
  }

  /** The rows the student listing shows, in the order it shows them. */
  function StudentListing(db: Db, user: Identity, query: DirectoryQuery): (r: seq<StudentProfile>)
    requires HasOwnProfile(db, user)
    ensures SortedBy(r, StudentByClassAndRoll)
    ensures forall s :: s in r <==> s in db.students && StudentMatches(db, StudentWhereOf(db, user, query), s)
    ensures forall s :: multiset(r)[s] == if StudentMatches(db, StudentWhereOf(db, user, query), s) then multiset(db.students)[s] else 0
  {
    var w := StudentWhereOf(db, user, query);
    StudentByClassAndRollIsPreorder();
    var kept := Filter(db.students, (s: StudentProfile) => StudentMatches(db, w, s));
    var r := Sort(kept, StudentByClassAndRoll);
    forall s
      ensures s in r <==> s in db.students && StudentMatches(db, w, s)
      ensures multiset(r)[s] == if StudentMatches(db, w, s) then multiset(db.students)[s] else 0
    {
      assert multiset(r)[s] == multiset(kept)[s];
      assert s in r <==> s in kept;
    }
    r
  }

  // ----------------------------------------------------------------- admins

  datatype AdminWhere = AdminWhere(school: SchoolScope, name: Option<string>)

  function AdminWhereOf(user: Identity, query: DirectoryQuery): (w: AdminWhere)
    ensures w.school == CallerScope(user, query.schoolId)
    ensures w.name.Some? <==> query.q != ""
    ensures w.name.Some? ==> w.name.value == query.q
  {
    var w := AdminWhere(CallerScope(user, query.schoolId), None);
    if query.q != "" then w.(name := Some(query.q)) else w
  }

  predicate AdminMatches(w: AdminWhere, a: AdminProfile) {
    InScope(w.school, a.schoolId) && (w.name.Some? ==> ContainsInsensitive(a.name, w.name.value))
  }

  predicate AdminByName(a: AdminProfile, b: AdminProfile) {
    StrLe(a.name, b.name)
  }

  lemma AdminByNameIsPreorder()
    ensures TotalPreorder(AdminByName)
  {
    forall a: AdminProfile, b: AdminProfile ensures AdminByName(a, b) || AdminByName(b, a) {
      StrLeTotal(a.name, b.name);
    }
    forall a: AdminProfile, b: AdminProfile, c: AdminProfile
      | AdminByName(a, b) && AdminByName(b, c)
      ensures AdminByName(a, c)
    {
      StrLeTransitive(a.name, b.name, c.name);
    }
  }

  /** The rows the admin listing shows, in the order it shows them. */
  function AdminListing(db: Db, user: Identity, query: DirectoryQuery): (r: seq<AdminProfile>)
    ensures SortedBy(r, AdminByName)
    ensures forall a :: a in r <==> a in db.admins && AdminMatches(AdminWhereOf(user, query), a)
    ensures forall a :: multiset(r)[a] == if AdminMatches(AdminWhereOf(user, query), a) then multiset(db.admins)[a] else 0
  {
    var w := AdminWhereOf(user, query);
    AdminByNameIsPreorder();
    var kept := Filter(db.admins, (a: AdminProfile) => AdminMatches(w, a));
    var r := Sort(kept, AdminByName);
    forall a
      ensures a in r <==> a in db.admins && AdminMatches(w, a)
      ensures multiset(r)[a] == if AdminMatches(w, a) then multiset(db.admins)[a] else 0
    {
      assert multiset(r)[a] == multiset(kept)[a];
      assert a in r <==> a in kept;
    }
    r
  }

  // -------------------------------------------------------------- responses

  datatype FacultyCsvRow = FacultyCsvRow(
    name: string, designation: string, qualifications: string, yearsOfExperience: int)

  datatype StudentCsvRow = StudentCsvRow(
    name: string, rollNumber: string, grade: int, section: string)

  datatype AdminCsvRow = AdminCsvRow(name: string, designation: string)

  /** A listing is rendered as a page, or with `format=csv` exported as rows
      of fixed fields (their serialisation is not part of this model). */
  datatype Response<T, C> = Page(rows: seq<T>) | Csv(csvRows: seq<C>)

  function FacultyCsv(rows: seq<FacultyProfile>): (csv: seq<FacultyCsvRow>)
    ensures |csv| == |rows|
    ensures forall i :: 0 <= i < |rows| ==>
      csv[i] == FacultyCsvRow(rows[i].name, rows[i].designation, rows[i].qualifications, rows[i].yearsOfExperience)
  {
    seq(|rows|, i requires 0 <= i < |rows| =>
      FacultyCsvRow(rows[i].name, rows[i].designation, rows[i].qualifications, rows[i].yearsOfExperience))
  }

  function StudentCsv(rows: seq<StudentProfile>): (csv: seq<StudentCsvRow>)
    ensures |csv| == |rows|
    ensures forall i :: 0 <= i < |rows| ==>
      csv[i] == StudentCsvRow(rows[i].name, rows[i].rollNumber, rows[i].grade, rows[i].section)
  {
    seq(|rows|, i requires 0 <= i < |rows| =>
      StudentCsvRow(rows[i].name, rows[i].rollNumber, rows[i].grade, rows[i].section))
  }

  function AdminCsv(rows: seq<AdminProfile>): (csv: seq<AdminCsvRow>)
    ensures |csv| == |rows|
    ensures forall i :: 0 <= i < |rows| ==> csv[i] == AdminCsvRow(rows[i].name, rows[i].designation)
  {
    seq(|rows|, i requires 0 <= i < |rows| => AdminCsvRow(rows[i].name, rows[i].designation))
  }

  /** `format=csv` exports the listing as CSV rows; any other format
      renders it as a page. */
  function FacultyDirectory(db: Db, user: Identity, query: DirectoryQuery): (r: Response<FacultyProfile, FacultyCsvRow>)
    ensures r.Csv? <==> query.format == "csv"
    ensures r.Page? ==> r.rows == FacultyListing(db, user, query)
    ensures r.Csv? ==> r.csvRows == FacultyCsv(FacultyListing(db, user, query))
  {
    var rows := FacultyListing(db, user, query);
    if query.format == "csv" then Csv(FacultyCsv(rows)) else Page(rows)
  }

  /** `format=csv` exports the listing as CSV rows; any other format
      renders it as a page. */
  function StudentDirectory(db: Db, user: Identity, query: DirectoryQuery): (r: Response<StudentProfile, StudentCsvRow>)
    requires HasOwnProfile(db, user)
    ensures r.Csv? <==> query.format == "csv"
    ensures r.Page? ==> r.rows == StudentListing(db, user, query)
    ensures r.Csv? ==> r.csvRows == StudentCsv(StudentListing(db, user, query))
  {
    var rows := StudentListing(db, user, query);
    if query.format == "csv" then Csv(StudentCsv(rows)) else Page(rows)
  }

  /** `format=csv` exports the listing as CSV rows; any other format
      renders it as a page. */
  function AdminDirectory(db: Db, user: Identity, query: DirectoryQuery): (r: Response<AdminProfile, AdminCsvRow>)
    ensures r.Csv? <==> query.format == "csv"
    ensures r.Page? ==> r.rows == AdminListing(db, user, query)
    ensures r.Csv? ==> r.csvRows == AdminCsv(AdminListing(db, user, query))
  {
    var rows := AdminListing(db, user, query);
    if query.format == "csv" then Csv(AdminCsv(rows)) else Page(rows)
  }

  // ------------------------------------------------------------- properties

  /** Tenant isolation and the super-admin's choice of school in the faculty
      listing. */
  lemma FacultyScoping(db: Db, user: Identity, query: DirectoryQuery)
    ensures !user.role.SuperAdmin? ==>
      forall f :: f in FacultyListing(db, user, query) ==> Some(f.schoolId) == user.schoolId
    ensures user.role.SuperAdmin? && query.schoolId.Some? ==>
      forall f :: f in FacultyListing(db, user, query) ==> f.schoolId == query.schoolId.value
    ensures user.role.SuperAdmin? && query.schoolId.None? ==>
      forall f :: f in FacultyListing(db, user, query) <==>
        f in db.faculty && FacultySearchMatches(db, FacultyWhereOf(user, query), f)
  {
  }

  /** Tenant isolation and the super-admin's choice of school in the admin
      listing; an admin profile without a school is seen only by callers
      whose session has no school, or by a super-admin naming none. */
  lemma AdminScoping(db: Db, user: Identity, query: DirectoryQuery)
    ensures !user.role.SuperAdmin? ==>
      forall a :: a in AdminListing(db, user, query) ==> a.schoolId == user.schoolId
    ensures user.role.SuperAdmin? && query.schoolId.Some? ==>
      forall a :: a in AdminListing(db, user, query) ==> a.schoolId == query.schoolId
    ensures user.role.SuperAdmin? && query.schoolId.None? ==>
      forall a :: a in AdminListing(db, user, query) <==>
        a in db.admins && (query.q != "" ==> ContainsInsensitive(a.name, query.q))
  {
  }

  /** Tenant isolation and the super-admin's choice of school in the student
      listing, for callers other than faculty. */
  lemma StudentScoping(db: Db, user: Identity, query: DirectoryQuery)
    requires !user.role.Faculty?
    ensures !user.role.SuperAdmin? ==>
      forall s :: s in StudentListing(db, user, query) ==> Some(s.schoolId) == user.schoolId
    ensures user.role.SuperAdmin? && query.schoolId.Some? ==>
      forall s :: s in StudentListing(db, user, query) ==> s.schoolId == query.schoolId.value
    ensures user.role.SuperAdmin? && query.schoolId.None? ==>
      forall s :: s in StudentListing(db, user, query) <==>
        s in db.students && StudentSearchMatches(StudentWhereOf(db, user, query), s)
  {
    var w := StudentWhereOf(db, user, query);
    assert w.school == CallerScope(user, query.schoolId) && w.inSections.None?;
  }

  /** The student is enrolled in a class section that the faculty member has
      a teaching assignment in. */
  predicate Teaches(db: Db, facultyId: Id, studentId: Id) {
    exists e :: e in db.enrollments && e.studentId == studentId && TeachesSection(db, facultyId, e.classSectionId)
  }

  lemma SectionsOfOwnAssignments(db: Db, facultyId: Id, studentId: Id)
    ensures EnrolledInAny(db, studentId, SectionsOf(AssignmentsOf(db, facultyId))) <==>
      Teaches(db, facultyId, studentId)
  {
    forall e | e in db.enrollments {
      OwnSections(db, facultyId, e.classSectionId);
    }
  }

  /** A faculty caller sees exactly the students of its own school that are
      enrolled in a section it teaches (before search filters), whatever
      school the query names. */
  lemma FacultySeesOwnSections(db: Db, user: Identity, query: DirectoryQuery)
    requires user.role.Faculty? && HasOwnProfile(db, user)
    ensures var f := FacultyByUser(db, user.id).value;
      forall s :: s in StudentListing(db, user, Unfiltered(query)) <==>
        s in db.students && s.schoolId == f.schoolId && Teaches(db, f.id, s.id)
    ensures var f := FacultyByUser(db, user.id).value;
      forall s :: s in StudentListing(db, user, query) ==>
        s.schoolId == f.schoolId && Teaches(db, f.id, s.id)
  {
    var f := FacultyByUser(db, user.id).value;
    var w0 := StudentWhereOf(db, user, Unfiltered(query));
    var w := StudentWhereOf(db, user, query);
    forall s | s in StudentListing(db, user, Unfiltered(query))
      ensures s in db.students && s.schoolId == f.schoolId && Teaches(db, f.id, s.id)
    {
      SectionsOfOwnAssignments(db, f.id, s.id);
    }
    forall s | s in db.students && s.schoolId == f.schoolId && Teaches(db, f.id, s.id)
      ensures s in StudentListing(db, user, Unfiltered(query))
    {
      SectionsOfOwnAssignments(db, f.id, s.id);
      assert StudentMatches(db, w0, s);
    }
    forall s | s in StudentListing(db, user, query)
      ensures s.schoolId == f.schoolId && Teaches(db, f.id, s.id)
    {
      assert StudentMatches(db, w, s);
      SectionsOfOwnAssignments(db, f.id, s.id);
    }
  }

  /** A faculty member without teaching assignments sees no students: the
      list of its sections is empty. */
  lemma NoAssignmentsNoStudents(db: Db, user: Identity, query: DirectoryQuery)
    requires user.role.Faculty? && HasOwnProfile(db, user)
    requires forall a :: a in db.assignments ==> a.facultyId != FacultyByUser(db, user.id).value.id
    ensures StudentListing(db, user, query) == []
  {
    var f := FacultyByUser(db, user.id).value;
    var r := StudentListing(db, user, query);
    FilterEmpty(db.assignments, (a: TeachingAssignment) => a.facultyId == f.id);
    var w := StudentWhereOf(db, user, query);
    assert w.inSections == Some([]);
    assert forall s :: s in r ==> StudentMatches(db, w, s);
  }

  /** The search filters only add conjuncts: a row is listed exactly when it
      is listed without them and matches each filter given. */
  lemma FacultyFiltersNarrow(db: Db, user: Identity, query: DirectoryQuery)
    ensures forall f :: f in FacultyListing(db, user, query) <==>
      && f in FacultyListing(db, user, Unfiltered(query))
      && (query.q != "" ==> ContainsInsensitive(f.name, query.q))
      && (query.subject != "" ==> HasSubjectLike(db, f.id, query.subject))
      && (query.grade.Some? ==> TeachesGrade(db, f.id, query.grade.value))
  {
  }

  lemma StudentFiltersNarrow(db: Db, user: Identity, query: DirectoryQuery)
    requires HasOwnProfile(db, user)
    ensures forall s :: s in StudentListing(db, user, query) <==>
      && s in StudentListing(db, user, Unfiltered(query))
      && (query.q != "" ==> NameOrRollLike(s, query.q))
      && (query.grade.Some? ==> s.grade == query.grade.value)
      && (query.section != "" ==> s.section == query.section)
  {
    var w, w0 := StudentWhereOf(db, user, query), StudentWhereOf(db, user, Unfiltered(query));
    assert w0 == w.(text := None, grade := None, section := None);
    forall s
      ensures StudentMatches(db, w, s) <==>
        && StudentMatches(db, w0, s)
        && (query.q != "" ==> NameOrRollLike(s, query.q))
        && (query.grade.Some? ==> s.grade == query.grade.value)
        && (query.section != "" ==> s.section == query.section)
    {
    }
  }

  lemma AdminFiltersNarrow(db: Db, user: Identity, query: DirectoryQuery)
    ensures forall a :: a in AdminListing(db, user, query) <==>
      && a in AdminListing(db, user, Unfiltered(query))
      && (query.q != "" ==> ContainsInsensitive(a.name, query.q))
  {
  }

  /** The CSV export is the listing the page shows for the same query, row
      for row and in the same order, cut down to its fixed fields. */
  lemma FacultyCsvFollowsPage(db: Db, user: Identity, query: DirectoryQuery)
    ensures var csv := FacultyDirectory(db, user, query.(format := "csv"));
      var page := FacultyDirectory(db, user, query.(format := ""));
      && csv.Csv? && page.Page? && |csv.csvRows| == |page.rows|
      && forall i :: 0 <= i < |page.rows| ==>
        && csv.csvRows[i].name == page.rows[i].name
        && csv.csvRows[i].designation == page.rows[i].designation
        && csv.csvRows[i].qualifications == page.rows[i].qualifications
        && csv.csvRows[i].yearsOfExperience == page.rows[i].yearsOfExperience
  {
    assert FacultyWhereOf(user, query.(format := "csv")) == FacultyWhereOf(user, query.(format := ""));
    assert FacultyListing(db, user, query.(format := "csv")) == FacultyListing(db, user, query.(format := ""));
  }

  lemma StudentCsvFollowsPage(db: Db, user: Identity, query: DirectoryQuery)
    requires HasOwnProfile(db, user)
    ensures var csv := StudentDirectory(db, user, query.(format := "csv"));
      var page := StudentDirectory(db, user, query.(format := ""));
      && csv.Csv? && page.Page? && |csv.csvRows| == |page.rows|
      && forall i :: 0 <= i < |page.rows| ==>
        && csv.csvRows[i].name == page.rows[i].name
        && csv.csvRows[i].rollNumber == page.rows[i].rollNumber
        && csv.csvRows[i].grade == page.rows[i].grade
        && csv.csvRows[i].section == page.rows[i].section
  {
    assert StudentWhereOf(db, user, query.(format := "csv")) == StudentWhereOf(db, user, query.(format := ""));
    assert StudentListing(db, user, query.(format := "csv")) == StudentListing(db, user, query.(format := ""));
  }

  lemma AdminCsvFollowsPage(db: Db, user: Identity, query: DirectoryQuery)
    ensures var csv := AdminDirectory(db, user, query.(format := "csv"));
      var page := AdminDirectory(db, user, query.(format := ""));
      && csv.Csv? && page.Page? && |csv.csvRows| == |page.rows|
      && forall i :: 0 <= i < |page.rows| ==>
        csv.csvRows[i].name == page.rows[i].name && csv.csvRows[i].designation == page.rows[i].designation
  {
    assert AdminWhereOf(user, query.(format := "csv")) == AdminWhereOf(user, query.(format := ""));
    assert AdminListing(db, user, query.(format := "csv")) == AdminListing(db, user, query.(format := ""));
  }
}
