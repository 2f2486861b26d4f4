/** The portal's data: the session identity and the tables of the relational
    store, as one immutable snapshot `Db` that queries read. */
module Domain {

  datatype Option<+T> = None | Some(value: T)

  datatype Result<+T, +E> = Ok(value: T) | Err(error: E)

  /** Database ids (autoincrement integers). */
  type Id = int

  /** The role names the schema defines. */
  const RoleNames: set<string> :=
    {"SUPER_ADMIN", "SCHOOL_ADMIN", "ACADEMIC_ADMIN", "FACULTY", "STUDENT", "PARENT"}

  /** A role string the schema does not define. */
  type OtherRoleName = name: string | name !in RoleNames witness ""

  /** The six roles of the schema. A session stores the role as a string, so
      `OtherRole` stands for any value outside them; a string that spells one
      of the six is that role, never an `OtherRole`. */
  datatype Role =
    | SuperAdmin
    | SchoolAdmin
    | AcademicAdmin
    | Faculty
    | Student
    | Parent
    | OtherRole(name: OtherRoleName)

  /** The identity kept in the session at sign-in: user id, role and home
      school, the last null for a super-admin. */
  datatype Identity = Identity(id: Id, role: Role, schoolId: Option<Id>)

  /** `req.session.user`, absent when there is no session or no user in it. */
  type Session = Option<Identity>

  /** A UTF-16 code unit. */
  type CodeUnit = u: int | 0 <= u < 0x1_0000

  /** A JavaScript string as its length and `slice` see it: a sequence of
      UTF-16 code units, where a character outside the Basic Multilingual
      Plane takes two. */
  type JsString = seq<CodeUnit>

  datatype School = School(id: Id, name: string, address: string, phone: string)

  datatype FacultyProfile = FacultyProfile(
    id: Id, userId: Id, schoolId: Id,
    name: string, designation: string, qualifications: string, yearsOfExperience: int)

  datatype StudentProfile = StudentProfile(
    id: Id, userId: Id, schoolId: Id,
    name: string, rollNumber: string, grade: int, section: string, parentName: string)

  /** The super-admin's own admin profile has no school. */
  datatype AdminProfile = AdminProfile(
    id: Id, userId: Id, schoolId: Option<Id>, name: string, designation: string)

  datatype ParentProfile = ParentProfile(id: Id, userId: Id, studentId: Id, name: string)

  datatype ClassSection = ClassSection(id: Id, schoolId: Id, grade: int, section: string)

  datatype Subject = Subject(id: Id, schoolId: Id, name: string, code: string)

  datatype FacultySubject = FacultySubject(facultyId: Id, subjectId: Id)

  datatype TeachingAssignment = TeachingAssignment(
    id: Id, schoolId: Id, facultyId: Id, classSectionId: Id, subjectId: Id)

  datatype StudentEnrollment = StudentEnrollment(id: Id, studentId: Id, classSectionId: Id)

  /** A review of a teacher, written by a student or by a parent. */
  datatype FacultyReview = FacultyReview(
    schoolId: Id, facultyId: Id, rating: int, comment: Option<JsString>,
    createdByStudentId: Option<Id>, createdByParentId: Option<Id>)

  /** A teacher's review of a student; the rating may be null. */
  datatype StudentReview = StudentReview(
    schoolId: Id, studentId: Id, facultyId: Id, rating: Option<int>, comment: Option<JsString>)

  datatype Db = Db(
    schools: seq<School>,
    faculty: seq<FacultyProfile>,
    students: seq<StudentProfile>,
    admins: seq<AdminProfile>,
    parents: seq<ParentProfile>,
    classSections: seq<ClassSection>,
    subjects: seq<Subject>,
    facultySubjects: seq<FacultySubject>,
    assignments: seq<TeachingAssignment>,
    enrollments: seq<StudentEnrollment>,
    facultyReviews: seq<FacultyReview>,
    studentReviews: seq<StudentReview>)

  /** `findUnique`: the first row that satisfies `p`, if there is one. */
  function FindFirst<T>(s: seq<T>, p: T -> bool): (r: Option<T>)
    ensures r.Some? ==> r.value in s && p(r.value)
    ensures r.None? ==> forall x :: x in s ==> !p(x)
  {
    if s == [] then None
    else if p(s[0]) then Some(s[0])
    else
      assert forall x :: x in s ==> x == s[0] || x in s[1..];
      FindFirst(s[1..], p)
  }

  function FacultyById(db: Db, id: Id): Option<FacultyProfile> {
    FindFirst(db.faculty, (f: FacultyProfile) => f.id == id)
  }

  function FacultyByUser(db: Db, userId: Id): Option<FacultyProfile> {
    FindFirst(db.faculty, (f: FacultyProfile) => f.userId == userId)
  }

  function StudentById(db: Db, id: Id): Option<StudentProfile> {
    FindFirst(db.students, (s: StudentProfile) => s.id == id)
  }

  function StudentByUser(db: Db, userId: Id): Option<StudentProfile> {
    FindFirst(db.students, (s: StudentProfile) => s.userId == userId)
  }

  function ParentByUser(db: Db, userId: Id): Option<ParentProfile> {
    FindFirst(db.parents, (p: ParentProfile) => p.userId == userId)
  }

  function SchoolById(db: Db, id: Id): Option<School> {
    FindFirst(db.schools, (s: School) => s.id == id)
  }

  /** The `where` of `findMany`: the rows that satisfy `p`, in stored order,
      each as often as it is stored. */
  function Filter<T(!new)>(s: seq<T>, p: T -> bool): (r: seq<T>)
    ensures forall x {:trigger x in r} :: x in r <==> x in s && p(x)
    ensures forall x {:trigger multiset(r)[x]} :: multiset(r)[x] == if p(x) then multiset(s)[x] else 0
    ensures |r| <= |s|
  {
    if s == [] then []
    else
      assert s == [s[0]] + s[1..];
      (if p(s[0]) then [s[0]] else []) + Filter(s[1..], p)
  }

  /** Nothing is selected exactly when no row satisfies the condition. */
  lemma FilterEmpty<T(!new)>(s: seq<T>, p: T -> bool)
    ensures Filter(s, p) == [] <==> forall x :: x in s ==> !p(x)
  {
    if Filter(s, p) != [] {
      assert Filter(s, p)[0] in Filter(s, p);
    } else {
      forall x | x in s && p(x)
        ensures x in Filter(s, p)
      {
      }
    }
  }

  /** A one-row table keeps its row exactly when the row matches. */
  lemma FilterSingleton<T(!new)>(x: T, p: T -> bool)
    ensures Filter([x], p) == if p(x) then [x] else []
  {
    assert [x][1..] == [];
  }

  /** Filtering a concatenation filters each part and keeps the parts in
      order; with `FilterSingleton` this fixes the stored order of the rows. */
  lemma {:induction false} FilterAppend<T(!new)>(a: seq<T>, b: seq<T>, p: T -> bool)
    ensures Filter(a + b, p) == Filter(a, p) + Filter(b, p)
  {
    if a == [] {
      assert a + b == b;
    } else {
      FilterAppend(a[1..], b, p);
      assert (a + b)[0] == a[0];
      assert (a + b)[1..] == a[1..] + b;
      var head := if p(a[0]) then [a[0]] else [];
      calc {
        Filter(a + b, p);
        head + Filter(a[1..] + b, p);
        head + (Filter(a[1..], p) + Filter(b, p));
        (head + Filter(a[1..], p)) + Filter(b, p);
        Filter(a, p) + Filter(b, p);
      }
    }
  }

  /** Appending rows that do not match leaves the selection as it was. */
  lemma FilterAppendNone<T(!new)>(a: seq<T>, b: seq<T>, p: T -> bool)
    requires forall x :: x in b ==> !p(x)
    ensures Filter(a + b, p) == Filter(a, p)
  {
    FilterAppend(a, b, p);
    FilterEmpty(b, p);
  }

  /** Filtering by two conditions that agree on every row gives the same rows. */
  lemma {:induction false} FilterAgree<T(!new)>(s: seq<T>, p: T -> bool, q: T -> bool)
    requires forall x :: x in s ==> p(x) == q(x)
    ensures Filter(s, p) == Filter(s, q)
  {
    if s != [] {
      FilterAgree(s[1..], p, q);
    }
  }

  /** `count({ where })`: the number of rows that satisfy `p`; zero exactly
      when none does. */
  function Count<T(!new)>(s: seq<T>, p: T -> bool): (n: nat)
    ensures n <= |s|
    ensures n == 0 <==> forall x :: x in s ==> !p(x)
  {
    FilterEmpty(s, p);
    |Filter(s, p)|
  }

  /** `faculty.assignments.map(a => a.classSectionId)`. */
  function SectionsOf(assignments: seq<TeachingAssignment>): (r: seq<Id>)
    ensures |r| == |assignments|
    ensures forall i :: 0 <= i < |r| ==> r[i] == assignments[i].classSectionId
  {
    seq(|assignments|, i requires 0 <= i < |assignments| => assignments[i].classSectionId)
  }

  /** A faculty member's teaching assignments (`include: { assignments: true }`). */
  function AssignmentsOf(db: Db, facultyId: Id): seq<TeachingAssignment> {
    Filter(db.assignments, (a: TeachingAssignment) => a.facultyId == facultyId)
  }

  /** The faculty member has a teaching assignment in the class section. */
  predicate TeachesSection(db: Db, facultyId: Id, sectionId: Id) {
    exists a :: a in db.assignments && a.facultyId == facultyId && a.classSectionId == sectionId
  }

  /** The section list a handler builds from a faculty member's assignments
      holds exactly the sections it teaches. */
  lemma OwnSections(db: Db, facultyId: Id, sectionId: Id)
    ensures sectionId in SectionsOf(AssignmentsOf(db, facultyId)) <==> TeachesSection(db, facultyId, sectionId)
  {
    var own := AssignmentsOf(db, facultyId);
    var ids := SectionsOf(own);
    if sectionId in ids {
      var i :| 0 <= i < |ids| && ids[i] == sectionId;
      assert own[i] in own;
    }
    if TeachesSection(db, facultyId, sectionId) {
      var a :| a in db.assignments && a.facultyId == facultyId && a.classSectionId == sectionId;
      assert a in own;
      var i :| 0 <= i < |own| && own[i] == a;
      assert ids[i] == sectionId;
    }
  }
}
