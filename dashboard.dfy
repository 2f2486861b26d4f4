/** `GET /dashboard`: a read-only summary chosen by the caller's role. A
    super-admin sees every school with its counts and its mean faculty
    rating; a school or academic admin sees counts and mean ratings of its
    own school; a faculty member sees its assignments, the reviews it has
    received and the students it reaches; a student or parent sees the
    student's record. */
module Dashboard {
  import opened Domain
  import opened Ordering

  // ------------------------------------------------------------------ means

  function Sum(xs: seq<int>): int {
    if xs == [] then 0 else xs[0] + Sum(xs[1..])
  }

  /** `_avg`: the exact mean of the values, null when there are none. */
  function Mean(xs: seq<int>): (m: Option<real>)
    ensures m.None? <==> xs == []
  {
    if xs == [] then None else Some(Sum(xs) as real / |xs| as real)
  }

  /** The mean times the number of values is their sum. */
  lemma MeanTimesCount(xs: seq<int>)
    requires xs != []
    ensures Mean(xs).value * |xs| as real == Sum(xs) as real
  {
    var n := |xs| as real;
    assert Mean(xs).value == Sum(xs) as real / n;
  }

  /** JavaScript's `x || null` on a nullable number: 0 becomes null as well. */
  function OrNull(m: Option<real>): (r: Option<real>)
    ensures r.None? <==> m.None? || m.value == 0.0
    ensures r.Some? ==> r == m
  {
    if m.Some? && m.value == 0.0 then None else m
  }

  lemma {:induction false} SumBounds(xs: seq<int>, lo: int, hi: int)
    requires forall i :: 0 <= i < |xs| ==> lo <= xs[i] <= hi
    ensures lo * |xs| <= Sum(xs) <= hi * |xs|
  {
    if xs != [] {
      SumBounds(xs[1..], lo, hi);
      assert lo * |xs| == lo + lo * |xs[1..]|;
      assert hi * |xs| == hi + hi * |xs[1..]|;
    }
  }

  /** A mean lies between the least and the greatest value averaged. */
  lemma MeanBounds(xs: seq<int>, lo: int, hi: int)
    requires xs != []
    requires forall i :: 0 <= i < |xs| ==> lo <= xs[i] <= hi
    ensures lo as real <= Mean(xs).value <= hi as real
  {
    SumBounds(xs, lo, hi);
    ScaleBounds(lo, hi, Sum(xs), |xs|);
  }

  /** Dividing `lo * n <= s <= hi * n` through by a positive n. */
  lemma ScaleBounds(lo: int, hi: int, s: int, n: int)
    requires n > 0 && lo * n <= s <= hi * n
    ensures lo as real <= s as real / n as real <= hi as real
  {
    var q := s as real / n as real;
    assert q * n as real == s as real;
    assert (lo * n) as real == lo as real * n as real;
    assert (hi * n) as real == hi as real * n as real;
  }

  /** `mean || null` is null exactly when there is nothing to average or the
      values sum to zero. */
  lemma MeanOrNull(xs: seq<int>)
    ensures OrNull(Mean(xs)).None? <==> xs == [] || Sum(xs) == 0
    ensures OrNull(Mean(xs)).Some? ==> OrNull(Mean(xs)).value * |xs| as real == Sum(xs) as real
  {
    if xs != [] {
      MeanTimesCount(xs);
    }
  }

  // ---------------------------------------------------------------- ratings

  /** The ratings of a school's faculty reviews. */
  function SchoolFacultyRatings(rs: seq<FacultyReview>, schoolId: Id): seq<int> {
    if rs == [] then []
    else (if rs[0].schoolId == schoolId then [rs[0].rating] else []) + SchoolFacultyRatings(rs[1..], schoolId)
  }

  /** The ratings of the reviews a faculty member has received. */
  function ReceivedRatings(rs: seq<FacultyReview>, facultyId: Id): seq<int> {
    if rs == [] then []
    else (if rs[0].facultyId == facultyId then [rs[0].rating] else []) + ReceivedRatings(rs[1..], facultyId)
  }

  /** The non-null ratings of a school's student reviews; null ratings are
      left out of the mean, not counted as zero. */
  function SchoolStudentRatings(rs: seq<StudentReview>, schoolId: Id): seq<int> {
    if rs == [] then []
    else
      (if rs[0].schoolId == schoolId && rs[0].rating.Some? then [rs[0].rating.value] else []) +
      SchoolStudentRatings(rs[1..], schoolId)
  }

  lemma {:induction false} SchoolFacultyRatingsEmpty(rs: seq<FacultyReview>, schoolId: Id)
    ensures SchoolFacultyRatings(rs, schoolId) == [] <==> forall r :: r in rs ==> r.schoolId != schoolId
  {
    if rs != [] {
      SchoolFacultyRatingsEmpty(rs[1..], schoolId);
      assert forall r :: r in rs <==> r == rs[0] || r in rs[1..];
    }
  }

  lemma {:induction false} SchoolStudentRatingsEmpty(rs: seq<StudentReview>, schoolId: Id)
    ensures SchoolStudentRatings(rs, schoolId) == [] <==>
      forall r :: r in rs ==> r.schoolId != schoolId || r.rating.None?
  {
    if rs != [] {
      SchoolStudentRatingsEmpty(rs[1..], schoolId);
      assert forall r :: r in rs <==> r == rs[0] || r in rs[1..];
    }
  }

  /** `facultyReview.aggregate({ where: { schoolId }, _avg })._avg.rating || null`. */
  function SchoolFacultyAverage(rs: seq<FacultyReview>, schoolId: Id): (avg: Option<real>)
    ensures avg.Some? ==> SchoolFacultyRatings(rs, schoolId) != [] && avg.value != 0.0
  {
    OrNull(Mean(SchoolFacultyRatings(rs, schoolId)))
  }

  /** `studentReview.aggregate({ where: { schoolId }, _avg })._avg.rating || null`. */
  function SchoolStudentAverage(rs: seq<StudentReview>, schoolId: Id): (avg: Option<real>)
    ensures avg.Some? ==> SchoolStudentRatings(rs, schoolId) != [] && avg.value != 0.0
  {
    OrNull(Mean(SchoolStudentRatings(rs, schoolId)))
  }

  lemma {:induction false} ReceivedRatingsEmpty(rs: seq<FacultyReview>, facultyId: Id)
    ensures ReceivedRatings(rs, facultyId) == [] <==> forall r :: r in rs ==> r.facultyId != facultyId
  {
    if rs != [] {
      ReceivedRatingsEmpty(rs[1..], facultyId);
      assert forall r :: r in rs <==> r == rs[0] || r in rs[1..];
    }
  }

  /** `facultyReview.aggregate({ where: { facultyId }, _avg })._avg.rating || null`. */
  function ReceivedAverage(rs: seq<FacultyReview>, facultyId: Id): (avg: Option<real>)
    ensures avg.Some? ==> ReceivedRatings(rs, facultyId) != [] && avg.value != 0.0
  {
    OrNull(Mean(ReceivedRatings(rs, facultyId)))
  }

  /** Running sum and count of one school's ratings. */
  datatype Totals = Totals(sum: int, count: nat)

  /** `groupBy({ by: ['schoolId'], _avg: { rating: true } })`: one running
      total per school that has reviews. */
  function GroupTotals(rs: seq<FacultyReview>): (g: map<Id, Totals>)
    ensures forall k :: k in g ==> 0 < g[k].count <= |rs|
  {
    if rs == [] then map[]
    else
      var g := GroupTotals(rs[1..]);
      var k := rs[0].schoolId;
      var t := if k in g then g[k] else Totals(0, 0);
      g[k := Totals(t.sum + rs[0].rating, t.count + 1)]
  }

  lemma {:induction false} GroupTotalsCorrect(rs: seq<FacultyReview>)
    ensures forall k :: k in GroupTotals(rs) <==> exists r :: r in rs && r.schoolId == k
    ensures forall k :: k in GroupTotals(rs) ==>
      GroupTotals(rs)[k] == Totals(Sum(SchoolFacultyRatings(rs, k)), |SchoolFacultyRatings(rs, k)|)
  {
    if rs != [] {
      var x, tail := rs[0], rs[1..];
      GroupTotalsCorrect(tail);
      forall k
        ensures k in GroupTotals(rs) <==> exists r :: r in rs && r.schoolId == k
        ensures k in GroupTotals(rs) ==>
          GroupTotals(rs)[k] == Totals(Sum(SchoolFacultyRatings(rs, k)), |SchoolFacultyRatings(rs, k)|)
      {
        if k == x.schoolId {
          assert x in rs;
          var t := SchoolFacultyRatings(tail, k);
          assert SchoolFacultyRatings(rs, k) == [x.rating] + t;
          assert ([x.rating] + t)[1..] == t;
          if k !in GroupTotals(tail) {
            if t != [] {
              assert t[0] in t;
              SchoolFacultyRatingsMember(tail, k, t[0]);
            }
          }
        } else {
          assert SchoolFacultyRatings(rs, k) == SchoolFacultyRatings(tail, k);
          assert forall r :: r in rs && r.schoolId == k ==> r in tail by {
            assert forall r :: r in rs ==> r == x || r in tail;
          }
        }
      }
    }
  }

  /** A rating in a school's list comes from a review of that school. */
  lemma {:induction false} SchoolFacultyRatingsMember(rs: seq<FacultyReview>, schoolId: Id, v: int)
    requires v in SchoolFacultyRatings(rs, schoolId)
    ensures exists r :: r in rs && r.schoolId == schoolId
  {
    if rs[0].schoolId != schoolId {
      SchoolFacultyRatingsMember(rs[1..], schoolId, v);
      var r :| r in rs[1..] && r.schoolId == schoolId;
      assert r in rs;
    } else {
      assert rs[0] in rs;
    }
  }

  /** `mapRatings`: a key for exactly the schools with at least one faculty
      review, mapped to the mean rating of that school's reviews. */
  function MapRatings(rs: seq<FacultyReview>): (m: map<Id, real>)
    ensures forall k :: k in m <==> exists r :: r in rs && r.schoolId == k
    ensures forall k :: k in m ==> Mean(SchoolFacultyRatings(rs, k)) == Some(m[k])
  {
    var g := GroupTotals(rs);
    GroupTotalsCorrect(rs);
    map k | k in g :: g[k].sum as real / g[k].count as real
  }

  // ----------------------------------------------------------------- counts

  /** The `_count`s of a school: faculty, students, admins, classes, subjects. */
  datatype Counts = Counts(faculty: nat, students: nat, admins: nat, classes: nat, subjects: nat)

  /** The five counts of a school; each is zero exactly when the table has
      no row of that school. */
  function CountsFor(db: Db, schoolId: Id): (c: Counts)
    ensures c.faculty == 0 <==> forall f :: f in db.faculty ==> f.schoolId != schoolId
    ensures c.students == 0 <==> forall s :: s in db.students ==> s.schoolId != schoolId
    ensures c.admins == 0 <==> forall a :: a in db.admins ==> a.schoolId != Some(schoolId)
    ensures c.classes == 0 <==> forall cs :: cs in db.classSections ==> cs.schoolId != schoolId
    ensures c.subjects == 0 <==> forall s :: s in db.subjects ==> s.schoolId != schoolId
  {
    Counts(
      Count(db.faculty, (f: FacultyProfile) => f.schoolId == schoolId),
      Count(db.students, (s: StudentProfile) => s.schoolId == schoolId),
      Count(db.admins, (a: AdminProfile) => a.schoolId == Some(schoolId)),
      Count(db.classSections, (c: ClassSection) => c.schoolId == schoolId),
      Count(db.subjects, (s: Subject) => s.schoolId == schoolId))
  }

  /** The counts of a school look only at that school's rows: adding rows of
      other schools to any of the counted tables changes none of them. */
  lemma CountsIgnoreOtherSchools(db: Db, schoolId: Id, fs: seq<FacultyProfile>, ss: seq<StudentProfile>,
                                 as_: seq<AdminProfile>, cs: seq<ClassSection>, subs: seq<Subject>)
    requires forall f :: f in fs ==> f.schoolId != schoolId
    requires forall s :: s in ss ==> s.schoolId != schoolId
    requires forall a :: a in as_ ==> a.schoolId != Some(schoolId)
    requires forall c :: c in cs ==> c.schoolId != schoolId
    requires forall s :: s in subs ==> s.schoolId != schoolId
    ensures CountsFor(db.(faculty := db.faculty + fs, students := db.students + ss, admins := db.admins + as_,
                          classSections := db.classSections + cs, subjects := db.subjects + subs), schoolId)
         == CountsFor(db, schoolId)
  {
    FilterAppendNone(db.faculty, fs, (f: FacultyProfile) => f.schoolId == schoolId);
    FilterAppendNone(db.students, ss, (s: StudentProfile) => s.schoolId == schoolId);
    FilterAppendNone(db.admins, as_, (a: AdminProfile) => a.schoolId == Some(schoolId));
    FilterAppendNone(db.classSections, cs, (c: ClassSection) => c.schoolId == schoolId);
    FilterAppendNone(db.subjects, subs, (s: Subject) => s.schoolId == schoolId);
  }

  /** `studentEnrollment.count({ where: { classSectionId: { in: ... } } })`. */
  function StudentsCount(db: Db, facultyId: Id): (n: nat)
    ensures n <= |db.enrollments|
    ensures n == 0 <==> forall e :: e in db.enrollments ==> e.classSectionId !in SectionsOf(AssignmentsOf(db, facultyId))
  {
    var sections := SectionsOf(AssignmentsOf(db, facultyId));
    Count(db.enrollments, (e: StudentEnrollment) => e.classSectionId in sections)
  }

  /** The faculty `studentsCount` counts each enrollment in a taught section
      once, however many assignments share that section. */
  lemma StudentsCountIsTaughtEnrollments(db: Db, facultyId: Id)
    ensures StudentsCount(db, facultyId) ==
      Count(db.enrollments, (e: StudentEnrollment) => TeachesSection(db, facultyId, e.classSectionId))
  {
    var sections := SectionsOf(AssignmentsOf(db, facultyId));
    forall e | e in db.enrollments {
      OwnSections(db, facultyId, e.classSectionId);
    }
    FilterAgree(db.enrollments, (e: StudentEnrollment) => e.classSectionId in sections,
                (e: StudentEnrollment) => TeachesSection(db, facultyId, e.classSectionId));
  }

  // ------------------------------------------------------------------ views

  datatype SchoolSummary = SchoolSummary(school: School, counts: Counts)

  predicate SchoolIdLe(a: School, b: School) {
    a.id <= b.id
  }

  lemma SchoolIdLeIsPreorder()
    ensures TotalPreorder(SchoolIdLe)
  {
  }

  /** The schools of a list of summaries, in order. */
  function SchoolsOf(summaries: seq<SchoolSummary>): (r: seq<School>)
    ensures |r| == |summaries|
    ensures forall i :: 0 <= i < |r| ==> r[i] == summaries[i].school
  {
    seq(|summaries|, i requires 0 <= i < |summaries| => summaries[i].school)
  }

  /** Each school with its counts, in the given order. */
  function Summarize(db: Db, schools: seq<School>): (r: seq<SchoolSummary>)
    ensures |r| == |schools|
    ensures SchoolsOf(r) == schools
    ensures forall i :: 0 <= i < |r| ==> r[i] == SchoolSummary(schools[i], CountsFor(db, schools[i].id))
    ensures forall s :: s in schools <==> exists i :: 0 <= i < |r| && r[i].school == s
  {
    var r := seq(|schools|, i requires 0 <= i < |schools| => SchoolSummary(schools[i], CountsFor(db, schools[i].id)));
    assert forall i :: 0 <= i < |r| ==> r[i].school == schools[i];
    assert SchoolsOf(r) == schools;
    r
  }

  /** `school.findMany({ orderBy: { id: 'asc' }, include: { _count: ... } })`. */
  function SchoolSummaries(db: Db): (r: seq<SchoolSummary>)
    ensures |r| == |db.schools|
    ensures forall i, j :: 0 <= i < j < |r| ==> r[i].school.id <= r[j].school.id
    ensures forall s :: s in db.schools <==> exists i :: 0 <= i < |r| && r[i].school == s
    ensures forall i :: 0 <= i < |r| ==> r[i].counts == CountsFor(db, r[i].school.id)
    ensures multiset(SchoolsOf(r)) == multiset(db.schools)
  {
    SchoolIdLeIsPreorder();
    var sorted := Sort(db.schools, SchoolIdLe);
    SameElements(sorted, db.schools);
    Summarize(db, sorted)
  }

  datatype StudentRecord = StudentRecord(
    profile: StudentProfile, enrollments: seq<StudentEnrollment>, receivedReviews: seq<StudentReview>)

  datatype ParentRecord = ParentRecord(profile: ParentProfile, student: Option<StudentRecord>)

  datatype View =
    | SuperAdminView(schools: seq<SchoolSummary>, mapRatings: map<Id, real>)
    | AdminView(currentSchool: Option<School>, counts: Counts, facultyAvg: Option<real>, studentAvg: Option<real>)
    | FacultyView(faculty: FacultyProfile, assignments: seq<TeachingAssignment>,
                  receivedReviews: seq<FacultyReview>, studentsCount: nat, avgRating: Option<real>)
    | StudentView(student: Option<StudentRecord>)
    | ParentView(parent: Option<ParentRecord>)

  /** The page rendered, or the status sent instead. */
  datatype Response = Render(view: View) | Refused(code: int, message: string)

  /** A student with its enrollments and the reviews it has received. */
  function RecordOf(db: Db, s: StudentProfile): (rec: StudentRecord)
    ensures rec.profile == s
    ensures forall e :: e in rec.enrollments <==> e in db.enrollments && e.studentId == s.id
    ensures forall rv :: rv in rec.receivedReviews <==> rv in db.studentReviews && rv.studentId == s.id
  {
    StudentRecord(
      s,
      Filter(db.enrollments, (e: StudentEnrollment) => e.studentId == s.id),
      Filter(db.studentReviews, (r: StudentReview) => r.studentId == s.id))
  }

  function ParentRecordOf(db: Db, p: ParentProfile): ParentRecord {
    var s := StudentById(db, p.studentId);
    ParentRecord(p, if s.Some? then Some(RecordOf(db, s.value)) else None)
  }

  predicate IsAdminRole(role: Role) {
    role.SchoolAdmin? || role.AcademicAdmin?
  }

  /** The super-admin page: every school with its counts, and the mean
      faculty rating per school. */
  function SuperAdminPage(db: Db): View {
    SuperAdminView(SchoolSummaries(db), MapRatings(db.facultyReviews))
  }

  /** The admin page of a school: its counts and its two mean ratings, each
      passed through `|| null`. */
  function AdminPage(db: Db, schoolId: Id): View {
    AdminView(
      SchoolById(db, schoolId),
      CountsFor(db, schoolId),
      SchoolFacultyAverage(db.facultyReviews, schoolId),
      SchoolStudentAverage(db.studentReviews, schoolId))
  }

  /** The faculty page of a faculty member. */
  function FacultyPage(db: Db, f: FacultyProfile): View {
    FacultyView(
      f,
      AssignmentsOf(db, f.id),
      Filter(db.facultyReviews, (r: FacultyReview) => r.facultyId == f.id),
      StudentsCount(db, f.id),
      ReceivedAverage(db.facultyReviews, f.id))
  }

  /** The `/dashboard` handler: an if-chain on the role. A caller other than a
      super-admin must carry a school: looking its school up by a null id
      fails, and every failure inside the handler is answered with 500. */
  function DashboardResponse(db: Db, user: Identity): (r: Response)
    ensures user.role.SuperAdmin? ==> r.Render?
    ensures r.Render? ==>
      && (r.view.SuperAdminView? <==> user.role.SuperAdmin?)
      && (r.view.AdminView? <==> IsAdminRole(user.role))
      && (r.view.FacultyView? <==> user.role.Faculty?)
      && (r.view.StudentView? <==> user.role.Student?)
      && (r.view.ParentView? <==> user.role.Parent?)
  {
    if user.role.SuperAdmin? then Render(SuperAdminPage(db))
    else if user.schoolId.None? then Refused(500, "Server error")
    else if IsAdminRole(user.role) then Render(AdminPage(db, user.schoolId.value))
    else if user.role.Faculty? then
      var faculty := FacultyByUser(db, user.id);
      if faculty.None? then Refused(500, "Server error") else Render(FacultyPage(db, faculty.value))
    else if user.role.Student? then
      var s := StudentByUser(db, user.id);
      Render(StudentView(if s.Some? then Some(RecordOf(db, s.value)) else None))
    else if user.role.Parent? then
      var p := ParentByUser(db, user.id);
      Render(ParentView(if p.Some? then Some(ParentRecordOf(db, p.value)) else None))
    else Refused(403, "Unsupported role")
  }

  // ------------------------------------------------------------- properties

  /** The super-admin view: schools in ascending id order, each with its own
      counts, and the per-school mean faculty rating for exactly the schools
      that have reviews. It carries no review text. */
  lemma SuperAdminDashboard(db: Db, user: Identity)
    requires user.role.SuperAdmin?
    ensures var r := DashboardResponse(db, user);
      && r.Render? && r.view.SuperAdminView?
      && r.view.schools == SchoolSummaries(db)
      && (forall i, j :: 0 <= i < j < |r.view.schools| ==> r.view.schools[i].school.id <= r.view.schools[j].school.id)
      && (forall k :: k in r.view.mapRatings <==> exists rv :: rv in db.facultyReviews && rv.schoolId == k)
      && (forall k :: k in r.view.mapRatings ==>
            Mean(SchoolFacultyRatings(db.facultyReviews, k)) == Some(r.view.mapRatings[k]))
  {
  }

  /** The admin view shows the caller's own school: its record, its counts
      and its two averages, whatever other schools hold. */
  lemma AdminDashboard(db: Db, user: Identity)
    requires IsAdminRole(user.role) && user.schoolId.Some?
    ensures var sid := user.schoolId.value;
      DashboardResponse(db, user) == Render(AdminView(
        SchoolById(db, sid), CountsFor(db, sid),
        SchoolFacultyAverage(db.facultyReviews, sid), SchoolStudentAverage(db.studentReviews, sid)))
    ensures var v := DashboardResponse(db, user).view;
      v.currentSchool.Some? ==> v.currentSchool.value.id == user.schoolId.value
  {
  }

  /** The admin `facultyAvg` is null when the school has no faculty reviews,
      and also when their ratings sum to 0; otherwise it is their mean. */
  lemma FacultyAverageMeaning(rs: seq<FacultyReview>, sid: Id)
    ensures var avg, ratings := SchoolFacultyAverage(rs, sid), SchoolFacultyRatings(rs, sid);
      && (avg.None? <==> (forall rv :: rv in rs ==> rv.schoolId != sid) || Sum(ratings) == 0)
      && (avg.Some? ==> avg.value * |ratings| as real == Sum(ratings) as real)
  {
    SchoolFacultyRatingsEmpty(rs, sid);
    MeanOrNull(SchoolFacultyRatings(rs, sid));
  }

  /** The admin `studentAvg` averages only the school's non-null ratings, and
      is null when there are none or they sum to 0. */
  lemma StudentAverageMeaning(rs: seq<StudentReview>, sid: Id)
    ensures var avg, ratings := SchoolStudentAverage(rs, sid), SchoolStudentRatings(rs, sid);
      && (avg.None? <==> (forall rv :: rv in rs ==> rv.schoolId != sid || rv.rating.None?) || Sum(ratings) == 0)
      && (avg.Some? ==> avg.value * |ratings| as real == Sum(ratings) as real)
  {
    var ratings := SchoolStudentRatings(rs, sid);
    assert SchoolStudentAverage(rs, sid) == OrNull(Mean(ratings));
    SchoolStudentRatingsEmpty(rs, sid);
    MeanOrNull(ratings);
  }

  /** The faculty `avgRating` is null when nobody has reviewed the faculty
      member, and also when the ratings sum to 0; otherwise it is their mean. */
  lemma ReceivedAverageMeaning(rs: seq<FacultyReview>, facultyId: Id)
    ensures var avg, ratings := ReceivedAverage(rs, facultyId), ReceivedRatings(rs, facultyId);
      && (avg.None? <==> (forall rv :: rv in rs ==> rv.facultyId != facultyId) || Sum(ratings) == 0)
      && (avg.Some? ==> avg.value * |ratings| as real == Sum(ratings) as real)
  {
    ReceivedRatingsEmpty(rs, facultyId);
    MeanOrNull(ReceivedRatings(rs, facultyId));
  }

  /** With ratings in 1..5, as the seeded data has them, a school's faculty
      average is null only when the school has no faculty reviews, and lies
      in 1..5 otherwise. */
  lemma FacultyAverageInRange(rs: seq<FacultyReview>, sid: Id)
    requires forall rv :: rv in rs ==> 1 <= rv.rating <= 5
    ensures var avg := SchoolFacultyAverage(rs, sid);
      && (avg.None? <==> forall rv :: rv in rs ==> rv.schoolId != sid)
      && (avg.Some? ==> 1.0 <= avg.value <= 5.0)
  {
    var ratings := SchoolFacultyRatings(rs, sid);
    SchoolFacultyRatingsEmpty(rs, sid);
    RatingsInRange(rs, sid);
    if ratings != [] {
      MeanBounds(ratings, 1, 5);
    }
  }

  lemma {:induction false} RatingsInRange(rs: seq<FacultyReview>, schoolId: Id)
    requires forall rv :: rv in rs ==> 1 <= rv.rating <= 5
    ensures forall i :: 0 <= i < |SchoolFacultyRatings(rs, schoolId)| ==> 1 <= SchoolFacultyRatings(rs, schoolId)[i] <= 5
  {
    if rs != [] {
      assert rs[0] in rs;
      assert forall rv :: rv in rs[1..] ==> rv in rs;
      RatingsInRange(rs[1..], schoolId);
    }
  }

  /** The faculty view: the caller's own profile, the enrollments in sections
      it teaches, and the mean of the ratings it has received. */
  lemma FacultyDashboard(db: Db, user: Identity)
    requires user.role.Faculty? && user.schoolId.Some? && FacultyByUser(db, user.id).Some?
    ensures var r := DashboardResponse(db, user);
      var f := FacultyByUser(db, user.id).value;
      && r.Render? && r.view.FacultyView?
      && r.view.faculty == f && f.userId == user.id
      && r.view.studentsCount ==
           Count(db.enrollments, (e: StudentEnrollment) => TeachesSection(db, f.id, e.classSectionId))
      && (forall rv :: rv in r.view.receivedReviews <==> rv in db.facultyReviews && rv.facultyId == f.id)
      && r.view.avgRating == ReceivedAverage(db.facultyReviews, f.id)
  {
    StudentsCountIsTaughtEnrollments(db, FacultyByUser(db, user.id).value.id);
  }

  /** A student is shown its own record; a parent is shown its own profile
      with the record of the student it is linked to. */
  lemma StudentAndParentDashboard(db: Db, user: Identity)
    requires (user.role.Student? || user.role.Parent?) && user.schoolId.Some?
    ensures var r := DashboardResponse(db, user);
      && r.Render?
      && (user.role.Student? ==>
            && r.view.StudentView?
            && (r.view.student.Some? <==> StudentByUser(db, user.id).Some?)
            && (r.view.student.Some? ==> r.view.student.value.profile.userId == user.id)
            && (StudentByUser(db, user.id).Some? ==>
                  r.view.student == Some(RecordOf(db, StudentByUser(db, user.id).value))))
      && (user.role.Parent? ==>
            && r.view.ParentView?
            && (r.view.parent.Some? <==> ParentByUser(db, user.id).Some?)
            && (r.view.parent.Some? ==> r.view.parent.value.profile.userId == user.id)
            && (r.view.parent.Some? && r.view.parent.value.student.Some? ==>
                  r.view.parent.value.student.value.profile.id == r.view.parent.value.profile.studentId)
            && (ParentByUser(db, user.id).Some? ==>
                  var linked := StudentById(db, ParentByUser(db, user.id).value.studentId);
                  && (r.view.parent.value.student.Some? <==> linked.Some?)
                  && (linked.Some? ==> r.view.parent.value.student == Some(RecordOf(db, linked.value)))))
  {
  }

  /** Every role the schema defines reaches a view; any other role is
      refused with 403 once the school lookup has run. */
  lemma RoleDispatch(db: Db, user: Identity)
    ensures user.role.OtherRole? && user.schoolId.Some? ==>
      DashboardResponse(db, user) == Refused(403, "Unsupported role")
    ensures !user.role.SuperAdmin? && user.schoolId.None? ==>
      DashboardResponse(db, user) == Refused(500, "Server error")
    ensures user.role.Faculty? && user.schoolId.Some? && FacultyByUser(db, user.id).None? ==>
      DashboardResponse(db, user) == Refused(500, "Server error")
    ensures DashboardResponse(db, user).Refused? ==>
      user.role.OtherRole? || user.schoolId.None? || (user.role.Faculty? && FacultyByUser(db, user.id).None?)
  {
  }
}
