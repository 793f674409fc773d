/** client/src/actions/types.js: the Redux actions the catalog slices
    react to, each with the payload its action creator dispatches. */
module Actions {
  import opened Schema

  /** `{ msg: err.response.statusText, status: err.response.status }` */
  datatype HttpError = HttpError(msg: string, status: nat)

  datatype Action =
    | GetColleges(colleges: seq<Doc<College>>)
    | GetCollege(college: Doc<College>)
    | AddCollege(college: Doc<College>)
    | UpdateCollege(college: Doc<College>)
    | DeleteCollege(collegeId: Id)
    | CollegeError(err: HttpError)
    | ClearCollege
    | GetCourses(courses: seq<Doc<Course>>)
    | GetCourse(course: Doc<Course>)
    | GetCollegeCourses(courses: seq<Doc<Course>>)
    | AddCourse(course: Doc<Course>)
    | UpdateCourse(course: Doc<Course>)
    | DeleteCourse(courseId: Id)
    | CourseError(err: HttpError)
    | ClearCourse
    | GetSemesters(semesters: seq<Doc<Semester>>)
    | GetSemester(semester: Doc<Semester>)
    | GetCourseSemesters(semesters: seq<Doc<Semester>>)
    | AddSemester(semester: Doc<Semester>)
    | UpdateSemester(semester: Doc<Semester>)
    | DeleteSemester(semesterId: Id)
    | SemesterError(err: HttpError)
    | ClearSemester
    | GetSubjects(subjects: seq<Doc<Subject>>)
    | GetSubject(subject: Doc<Subject>)
    | GetSemesterSubjects(subjects: seq<Doc<Subject>>)
    | GetCourseSubjects(subjects: seq<Doc<Subject>>)
    | AddSubject(subject: Doc<Subject>)
    | UpdateSubject(subject: Doc<Subject>)
    | DeleteSubject(subjectId: Id)
    | SubjectError(err: HttpError)
    | ClearSubject
    | GetPapers(papers: seq<Doc<Paper>>)
    | GetPaper(paper: Doc<Paper>)
    | GetFilteredPapers(papers: seq<Doc<Paper>>)
    | AddPaper(paper: Doc<Paper>)
    | UpdatePaper(paper: Doc<Paper>)
    | DeletePaper(paperId: Id)
    | PaperError(err: HttpError)
    | ClearPaper
    | SetLoading
    /** The auth and alert types, which no catalog slice handles. */
    | Other(name: string)

  predicate IsCollegeAction(a: Action) {
    a.GetColleges? || a.GetCollege? || a.AddCollege? || a.UpdateCollege? || a.DeleteCollege?
    || a.CollegeError? || a.ClearCollege?
  }

  predicate IsCourseAction(a: Action) {
    a.GetCourses? || a.GetCourse? || a.GetCollegeCourses? || a.AddCourse? || a.UpdateCourse?
    || a.DeleteCourse? || a.CourseError? || a.ClearCourse?
  }

  predicate IsSemesterAction(a: Action) {
    a.GetSemesters? || a.GetSemester? || a.GetCourseSemesters? || a.AddSemester? || a.UpdateSemester?
    || a.DeleteSemester? || a.SemesterError? || a.ClearSemester?
  }

  predicate IsSubjectAction(a: Action) {
    a.GetSubjects? || a.GetSubject? || a.GetSemesterSubjects? || a.GetCourseSubjects? || a.AddSubject?
    || a.UpdateSubject? || a.DeleteSubject? || a.SubjectError? || a.ClearSubject?
  }

  predicate IsPaperAction(a: Action) {
    a.GetPapers? || a.GetPaper? || a.GetFilteredPapers? || a.AddPaper? || a.UpdatePaper?
    || a.DeletePaper? || a.PaperError? || a.ClearPaper?
  }
}
