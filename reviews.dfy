/** Review creation: `POST /reviews/faculty/:facultyId` (a student or a
    parent rates a teacher) and `POST /reviews/student/:studentId` (a teacher
    rates a student). Each request runs a fixed sequence of gates, builds the
    row, and appends it to its table. */
module Reviews {
  import opened Domain

  /** A body field as the handlers see it. Forms arrive as strings and JSON
      bodies (the server also parses those) as typed values: absent or null,
      the empty string, a string that is not a number (NaN), a string whose
      value is the integer n, or a JSON number n. */
  datatype NumInput = Absent | Blank | NotNumeric | Num(n: int) | JsonNum(n: int)

  /** The request body: `rating` and `comment`. */
  datatype ReviewBody = ReviewBody(rating: NumInput, comment: Option<JsString>)

  /** A refused request: HTTP status and response text. */
  datatype Refusal = Status(code: int, message: string)

  const MaxCommentLength: nat := 500

  /** `Number(rating) || 0`: a numeric rating is stored as given, without
      clamping to 1..5; NaN (and null or absent) becomes 0. */
  function FacultyRating(input: NumInput): (r: int)
    ensures input.Num? || input.JsonNum? ==> r == input.n
    ensures !(input.Num? || input.JsonNum?) ==> r == 0
  {
    if input.Num? || input.JsonNum? then input.n else 0
  }

  /** `comment?.slice(0, 500) || null`, counting UTF-16 code units. */
  function NormalComment(comment: Option<JsString>): (r: Option<JsString>)
    ensures r.None? <==> comment.None? || comment.value == []
    ensures r.Some? ==> |r.value| <= MaxCommentLength && r.value <= comment.value && r.value != []
    ensures comment.Some? && |comment.value| > MaxCommentLength ==> |r.value| == MaxCommentLength
    ensures comment.Some? && comment.value != [] && |comment.value| <= MaxCommentLength ==> r == comment
  {
    if comment.None? || comment.value == [] then None
    else if |comment.value| <= MaxCommentLength then comment
    else Some(comment.value[..MaxCommentLength])
  }

  /** `rating ? Number(rating) : null`: a falsy rating (absent, null, the
      empty string, the JSON number 0) gives null, while the string "0" is
      truthy and gives 0; NaN is handed to the database, which rejects it. */
  function StudentRating(input: NumInput): (r: Option<int>)
    requires !input.NotNumeric?
    ensures r.None? <==> input.Absent? || input.Blank? || input == JsonNum(0)
    ensures r.Some? ==> input == Num(r.value) || input == JsonNum(r.value)
  {
    if input.Num? || (input.JsonNum? && input.n != 0) then Some(input.n) else None
  }

  /** The two handlers read a numeric rating alike: where the student handler
      stores a number it is the one the faculty handler would store, and
      where it stores null the faculty handler stores 0. */
  lemma RatingReadings(input: NumInput)
    requires !input.NotNumeric?
    ensures StudentRating(input).Some? ==> StudentRating(input).value == FacultyRating(input)
    ensures StudentRating(input).None? ==> FacultyRating(input) == 0
    ensures FacultyRating(input) != 0 ==> StudentRating(input) == Some(FacultyRating(input))
  {
  }

  predicate MayRateFaculty(role: Role) {
    role.Student? || role.Parent?
  }

  /** The caller's own author profile exists: a student profile for a
      student, a parent profile for a parent. */
  predicate HasAuthorProfile(db: Db, user: Identity) {
    || (user.role.Student? && StudentByUser(db, user.id).Some?)
    || (user.role.Parent? && ParentByUser(db, user.id).Some?)
  }

  /** The decision of `POST /reviews/faculty/:facultyId`: the row to insert, or
      the refusal. The target is looked up before the caller's role is
      looked at. */
  function FacultyReviewOutcome(db: Db, user: Identity, facultyId: Id, body: ReviewBody): (r: Result<FacultyReview, Refusal>)
    ensures FacultyById(db, facultyId).None? ==> r == Err(Status(404, "Faculty not found"))
    ensures FacultyById(db, facultyId).Some? && !MayRateFaculty(user.role) ==> r == Err(Status(403, "Not allowed"))
    ensures FacultyById(db, facultyId).Some? && user.role.Student? && StudentByUser(db, user.id).None? ==>
      r == Err(Status(403, "Not a student"))
    ensures FacultyById(db, facultyId).Some? && user.role.Parent? && ParentByUser(db, user.id).None? ==>
      r == Err(Status(403, "Not a parent"))
    ensures r.Ok? <==> FacultyById(db, facultyId).Some? && HasAuthorProfile(db, user)
    ensures r.Ok? ==>
      && r.value.facultyId == facultyId
      && r.value.schoolId == FacultyById(db, facultyId).value.schoolId
      && r.value.rating == FacultyRating(body.rating)
      && r.value.comment == NormalComment(body.comment)
    ensures r.Ok? ==> r.value.createdByStudentId.Some? != r.value.createdByParentId.Some?
    ensures r.Ok? && user.role.Student? ==>
      r.value.createdByStudentId == Some(StudentByUser(db, user.id).value.id)
    ensures r.Ok? && user.role.Parent? ==>
      r.value.createdByParentId == Some(ParentByUser(db, user.id).value.id)
  {
    var faculty := FacultyById(db, facultyId);
    if faculty.None? then Err(Status(404, "Faculty not found"))
    else
      var data := FacultyReview(faculty.value.schoolId, facultyId, FacultyRating(body.rating),
                                NormalComment(body.comment), None, None);
      if user.role.Student? then
        var student := StudentByUser(db, user.id);
        if student.None? then Err(Status(403, "Not a student"))
        else Ok(data.(createdByStudentId := Some(student.value.id)))
      else if user.role.Parent? then
        var parent := ParentByUser(db, user.id);
        if parent.None? then Err(Status(403, "Not a parent"))
        else Ok(data.(createdByParentId := Some(parent.value.id)))
      else Err(Status(403, "Not allowed"))
  }

  /** The decision of `POST /reviews/student/:studentId`: role, then the
      caller's own faculty profile, then the target student, then the row;
      a NaN rating makes the insert fail with a server error. */
  function StudentReviewOutcome(db: Db, user: Identity, studentId: Id, body: ReviewBody): (r: Result<StudentReview, Refusal>)
    ensures !user.role.Faculty? ==> r == Err(Status(403, "Not allowed"))
    ensures user.role.Faculty? && FacultyByUser(db, user.id).None? ==> r == Err(Status(403, "No faculty profile"))
    ensures user.role.Faculty? && FacultyByUser(db, user.id).Some? && StudentById(db, studentId).None? ==>
      r == Err(Status(404, "Student not found"))
    ensures user.role.Faculty? && FacultyByUser(db, user.id).Some? && StudentById(db, studentId).Some? ==>
      body.rating.NotNumeric? ==> r == Err(Status(500, "Server error"))
    ensures r.Ok? <==>
      user.role.Faculty? && FacultyByUser(db, user.id).Some? && StudentById(db, studentId).Some? &&
      !body.rating.NotNumeric?
    ensures r.Ok? ==>
      && r.value.studentId == studentId
      && r.value.schoolId == StudentById(db, studentId).value.schoolId
      && r.value.facultyId == FacultyByUser(db, user.id).value.id
      && r.value.rating == StudentRating(body.rating)
      && r.value.comment == NormalComment(body.comment)
  {
    if !user.role.Faculty? then Err(Status(403, "Not allowed"))
    else
      var faculty := FacultyByUser(db, user.id);
      if faculty.None? then Err(Status(403, "No faculty profile"))
      else
        var student := StudentById(db, studentId);
        if student.None? then Err(Status(404, "Student not found"))
        else if body.rating.NotNumeric? then Err(Status(500, "Server error"))
        else
          Ok(StudentReview(student.value.schoolId, student.value.id, faculty.value.id,
                           StudentRating(body.rating), NormalComment(body.comment)))
  }

  /** Neither decision looks at the reviews already stored: there is no
      deduplication, and a repeated request is decided the same way. */
  lemma NoDeduplication(db: Db, fr: seq<FacultyReview>, sr: seq<StudentReview>,
                        user: Identity, id: Id, body: ReviewBody)
    ensures FacultyReviewOutcome(db.(facultyReviews := fr, studentReviews := sr), user, id, body) ==
            FacultyReviewOutcome(db, user, id, body)
    ensures StudentReviewOutcome(db.(facultyReviews := fr, studentReviews := sr), user, id, body) ==
            StudentReviewOutcome(db, user, id, body)
  {
  }

  /** A teacher may review any student that exists, whether or not it
      teaches the student: teaching assignments and enrollments play no part. */
  lemma StudentReviewIgnoresTeaching(db: Db, ta: seq<TeachingAssignment>, es: seq<StudentEnrollment>,
                                     user: Identity, studentId: Id, body: ReviewBody)
    ensures StudentReviewOutcome(db.(assignments := ta, enrollments := es), user, studentId, body) ==
            StudentReviewOutcome(db, user, studentId, body)
  {
  }

  /** The store behind the portal; the review handlers are its only writers,
      and they only append. */
  class Store {
    var schools: seq<School>
    var faculty: seq<FacultyProfile>
    var students: seq<StudentProfile>
    var admins: seq<AdminProfile>
    var parents: seq<ParentProfile>
    var classSections: seq<ClassSection>
    var subjects: seq<Subject>
    var facultySubjects: seq<FacultySubject>
    var assignments: seq<TeachingAssignment>
    var enrollments: seq<StudentEnrollment>
    var facultyReviews: seq<FacultyReview>
    var studentReviews: seq<StudentReview>

    /** The tables as one value, for the read-only queries. */
    function Snapshot(): Db
      reads this
    {
      Db(schools, faculty, students, admins, parents, classSections, subjects,
         facultySubjects, assignments, enrollments, facultyReviews, studentReviews)
    }

    constructor (db: Db)
      ensures Snapshot() == db
    {
      schools, faculty, students, admins := db.schools, db.faculty, db.students, db.admins;
      parents, classSections, subjects := db.parents, db.classSections, db.subjects;
      facultySubjects, assignments, enrollments := db.facultySubjects, db.assignments, db.enrollments;
      facultyReviews, studentReviews := db.facultyReviews, db.studentReviews;
    }

    /** `POST /reviews/faculty/:facultyId`: on success exactly one row is
        appended to the faculty reviews; on refusal nothing is stored. */
    method CreateFacultyReview(user: Identity, facultyId: Id, body: ReviewBody)
      returns (r: Result<FacultyReview, Refusal>)
      modifies this`facultyReviews
      ensures r == FacultyReviewOutcome(old(Snapshot()), user, facultyId, body)
      ensures facultyReviews == old(facultyReviews) + (if r.Ok? then [r.value] else [])
      ensures Snapshot() == old(Snapshot()).(facultyReviews := facultyReviews)
    {
      var db := Snapshot();
      var target := FacultyById(db, facultyId);
      if target.None? {
        return Err(Status(404, "Faculty not found"));
      }
      var data := FacultyReview(target.value.schoolId, facultyId, FacultyRating(body.rating),
                                NormalComment(body.comment), None, None);
      if user.role.Student? {
        var student := StudentByUser(db, user.id);
        if student.None? {
          return Err(Status(403, "Not a student"));
        }
        data := data.(createdByStudentId := Some(student.value.id));
      } else if user.role.Parent? {
        var parent := ParentByUser(db, user.id);
        if parent.None? {
          return Err(Status(403, "Not a parent"));
        }
        data := data.(createdByParentId := Some(parent.value.id));
      } else {
        return Err(Status(403, "Not allowed"));
      }
      facultyReviews := facultyReviews + [data];
      r := Ok(data);
    }

    /** `POST /reviews/student/:studentId`: on success exactly one row is
        appended to the student reviews; on refusal nothing is stored. */
    method CreateStudentReview(user: Identity, studentId: Id, body: ReviewBody)
      returns (r: Result<StudentReview, Refusal>)
      modifies this`studentReviews
      ensures r == StudentReviewOutcome(old(Snapshot()), user, studentId, body)
      ensures studentReviews == old(studentReviews) + (if r.Ok? then [r.value] else [])
      ensures Snapshot() == old(Snapshot()).(studentReviews := studentReviews)
    {
      if !user.role.Faculty? {
        return Err(Status(403, "Not allowed"));
      }
      var db := Snapshot();
      var author := FacultyByUser(db, user.id);
      if author.None? {
        return Err(Status(403, "No faculty profile"));
      }
      var target := StudentById(db, studentId);
      if target.None? {
        return Err(Status(404, "Student not found"));
      }
      if body.rating.NotNumeric? {
        return Err(Status(500, "Server error"));
      }
      var row := StudentReview(target.value.schoolId, target.value.id, author.value.id,
                               StudentRating(body.rating), NormalComment(body.comment));
      studentReviews := studentReviews + [row];
      r := Ok(row);
    }
  }
}
