/** client/src/reducers: one reducer per catalog slice, combined under
    `college`, `course`, `semester`, `subject` and `paper`. */
module Reducers {
  import opened Schema
  import opened Actions
  import opened Slices

  function CollegeOp(a: Action): Op<College> {
    match a
    case GetColleges(xs) => Load(xs)
    case GetCollege(d) => Pick(d)
    case AddCollege(d) => Prepend(d)
    case UpdateCollege(d) => Replace(d)
    case DeleteCollege(id) => Remove(id)
    case CollegeError(e) => Fail(e)
    case ClearCollege => ClearCurrent
    case SetLoading => StartLoading
    case _ => Ignore
  }

  /** collegeReducer.js */
  function CollegeReducer(s: Slice<College>, a: Action): (r: Slice<College>)
    ensures a.GetColleges? ==> Loaded(s, r, a.colleges)
    ensures a.GetCollege? ==> Picked(s, r, a.college)
    ensures a.AddCollege? ==> Prepended(s, r, a.college)
    ensures a.UpdateCollege? ==> Replaced(s, r, a.college)
    ensures a.DeleteCollege? ==> Removed(s, r, a.collegeId)
    ensures a.CollegeError? ==> Failed(s, r, a.err)
    ensures a.ClearCollege? ==> Cleared(s, r)
    ensures a.SetLoading? ==> LoadingStarted(s, r)
    ensures !IsCollegeAction(a) && !a.SetLoading? ==> r == s
  {
    Apply(s, CollegeOp(a))
  }

  function CourseOp(a: Action): Op<Course> {
    match a
    case GetCourses(xs) => Load(xs)
    case GetCollegeCourses(xs) => Load(xs)
    case GetCourse(d) => Pick(d)
    case AddCourse(d) => Prepend(d)
    case UpdateCourse(d) => Replace(d)
    case DeleteCourse(id) => Remove(id)
    case CourseError(e) => Fail(e)
    case ClearCourse => ClearCurrent
    case SetLoading => StartLoading
    case _ => Ignore
  }

  /** courseReducer.js: both list actions replace the list. */
  function CourseReducer(s: Slice<Course>, a: Action): (r: Slice<Course>)
    ensures a.GetCourses? || a.GetCollegeCourses? ==> Loaded(s, r, a.courses)
    ensures a.GetCourse? ==> Picked(s, r, a.course)
    ensures a.AddCourse? ==> Prepended(s, r, a.course)
    ensures a.UpdateCourse? ==> Replaced(s, r, a.course)
    ensures a.DeleteCourse? ==> Removed(s, r, a.courseId)
    ensures a.CourseError? ==> Failed(s, r, a.err)
    ensures a.ClearCourse? ==> Cleared(s, r)
    ensures a.SetLoading? ==> LoadingStarted(s, r)
    ensures !IsCourseAction(a) && !a.SetLoading? ==> r == s
  {
    Apply(s, CourseOp(a))
  }

  function SemesterOp(a: Action): Op<Semester> {
    match a
    case GetSemesters(xs) => Load(xs)
    case GetCourseSemesters(xs) => Load(xs)
    case GetSemester(d) => Pick(d)
    case AddSemester(d) => Prepend(d)
    case UpdateSemester(d) => Replace(d)
    case DeleteSemester(id) => Remove(id)
    case SemesterError(e) => Fail(e)
    case ClearSemester => ClearCurrent
    case SetLoading => StartLoading
    case _ => Ignore
  }

  /** semesterReducer.js: both list actions replace the list. */
  function SemesterReducer(s: Slice<Semester>, a: Action): (r: Slice<Semester>)
    ensures a.GetSemesters? || a.GetCourseSemesters? ==> Loaded(s, r, a.semesters)
    ensures a.GetSemester? ==> Picked(s, r, a.semester)
    ensures a.AddSemester? ==> Prepended(s, r, a.semester)
    ensures a.UpdateSemester? ==> Replaced(s, r, a.semester)
    ensures a.DeleteSemester? ==> Removed(s, r, a.semesterId)
    ensures a.SemesterError? ==> Failed(s, r, a.err)
    ensures a.ClearSemester? ==> Cleared(s, r)
    ensures a.SetLoading? ==> LoadingStarted(s, r)
    ensures !IsSemesterAction(a) && !a.SetLoading? ==> r == s
  {
    Apply(s, SemesterOp(a))
  }

  function SubjectOp(a: Action): Op<Subject> {
    match a
    case GetSubjects(xs) => Load(xs)
    case GetSemesterSubjects(xs) => Load(xs)
    case GetCourseSubjects(xs) => Load(xs)
    case GetSubject(d) => Pick(d)
    case AddSubject(d) => Prepend(d)
    case UpdateSubject(d) => Replace(d)
    case DeleteSubject(id) => Remove(id)
    case SubjectError(e) => Fail(e)
    case ClearSubject => ClearCurrent
    case SetLoading => StartLoading
    case _ => Ignore
  }

  /** subjectReducer.js: all three list actions replace the list. */
  function SubjectReducer(s: Slice<Subject>, a: Action): (r: Slice<Subject>)
    ensures a.GetSubjects? || a.GetSemesterSubjects? || a.GetCourseSubjects? ==> Loaded(s, r, a.subjects)
    ensures a.GetSubject? ==> Picked(s, r, a.subject)
    ensures a.AddSubject? ==> Prepended(s, r, a.subject)
    ensures a.UpdateSubject? ==> Replaced(s, r, a.subject)
    ensures a.DeleteSubject? ==> Removed(s, r, a.subjectId)
    ensures a.SubjectError? ==> Failed(s, r, a.err)
    ensures a.ClearSubject? ==> Cleared(s, r)
    ensures a.SetLoading? ==> LoadingStarted(s, r)
    ensures !IsSubjectAction(a) && !a.SetLoading? ==> r == s
  {
    Apply(s, SubjectOp(a))
  }

  function PaperOp(a: Action): Op<Paper> {
    match a
    case GetPapers(xs) => Load(xs)
    case GetFilteredPapers(xs) => Load(xs)
    case GetPaper(d) => Pick(d)
    case AddPaper(d) => Prepend(d)
    case UpdatePaper(d) => Replace(d)
    case DeletePaper(id) => Remove(id)
    case PaperError(e) => Fail(e)
    case ClearPaper => ClearCurrent
    case SetLoading => StartLoading
    case _ => Ignore
  }

  /** paperReducer.js: the full and the filtered list replace the list alike. */
  function PaperReducer(s: Slice<Paper>, a: Action): (r: Slice<Paper>)
    ensures a.GetPapers? || a.GetFilteredPapers? ==> Loaded(s, r, a.papers)
    ensures a.GetPaper? ==> Picked(s, r, a.paper)
    ensures a.AddPaper? ==> Prepended(s, r, a.paper)
    ensures a.UpdatePaper? ==> Replaced(s, r, a.paper)
    ensures a.DeletePaper? ==> Removed(s, r, a.paperId)
    ensures a.PaperError? ==> Failed(s, r, a.err)
    ensures a.ClearPaper? ==> Cleared(s, r)
    ensures a.SetLoading? ==> LoadingStarted(s, r)
    ensures !IsPaperAction(a) && !a.SetLoading? ==> r == s
  {
    Apply(s, PaperOp(a))
  }

  /** The part of the `combineReducers` state this model covers. */
  datatype Root = Root(college: Slice<College>, course: Slice<Course>, semester: Slice<Semester>,
                       subject: Slice<Subject>, paper: Slice<Paper>)

  function InitialRoot(): (r: Root)
    ensures r.college == Initial() && r.course == Initial() && r.semester == Initial()
    ensures r.subject == Initial() && r.paper == Initial()
  {
    Root(Initial(), Initial(), Initial(), Initial(), Initial())
  }

  /** `combineReducers`: every action is offered to every slice. */
  function RootReducer(root: Root, a: Action): (r: Root)
    // a slice changes only under its own entity's actions or SET_LOADING
    ensures !IsCollegeAction(a) && !a.SetLoading? ==> r.college == root.college
    ensures !IsCourseAction(a) && !a.SetLoading? ==> r.course == root.course
    ensures !IsSemesterAction(a) && !a.SetLoading? ==> r.semester == root.semester
    ensures !IsSubjectAction(a) && !a.SetLoading? ==> r.subject == root.subject
    ensures !IsPaperAction(a) && !a.SetLoading? ==> r.paper == root.paper
  {
    Root(CollegeReducer(root.college, a), CourseReducer(root.course, a), SemesterReducer(root.semester, a),
         SubjectReducer(root.subject, a), PaperReducer(root.paper, a))
  }

  /** SET_LOADING is one action type: it raises the flag of every slice and touches nothing else. */
  lemma SetLoadingReachesEverySlice(root: Root)
    ensures var r := RootReducer(root, SetLoading);
      && LoadingStarted(root.college, r.college) && LoadingStarted(root.course, r.course)
      && LoadingStarted(root.semester, r.semester) && LoadingStarted(root.subject, r.subject)
      && LoadingStarted(root.paper, r.paper)
  {
  }

  /** Each entity action changes its own slice only. */
  lemma OtherSlicesUnchanged(root: Root, a: Action)
    ensures var r := RootReducer(root, a);
      && (!IsCollegeAction(a) && !a.SetLoading? ==> r.college == root.college)
      && (!IsCourseAction(a) && !a.SetLoading? ==> r.course == root.course)
      && (!IsSemesterAction(a) && !a.SetLoading? ==> r.semester == root.semester)
      && (!IsSubjectAction(a) && !a.SetLoading? ==> r.subject == root.subject)
      && (!IsPaperAction(a) && !a.SetLoading? ==> r.paper == root.paper)
  {
  }

  /** A paper action goes to the paper reducer and leaves the other four slices as they were. */
  lemma PaperActionOnly(root: Root, a: Action)
    requires IsPaperAction(a)
    ensures RootReducer(root, a) == root.(paper := PaperReducer(root.paper, a))
  {
    assert !a.SetLoading? && !IsCollegeAction(a) && !IsCourseAction(a);
    assert !IsSemesterAction(a) && !IsSubjectAction(a);
    assert CollegeReducer(root.college, a) == root.college;
    assert CourseReducer(root.course, a) == root.course;
    assert SemesterReducer(root.semester, a) == root.semester;
    assert SubjectReducer(root.subject, a) == root.subject;
  }

  /** An action no slice handles (an auth or alert type) leaves the state as it was. */
  lemma UnhandledIsNoOp(root: Root, name: string)
    ensures RootReducer(root, Other(name)) == root
  {
  }
}
