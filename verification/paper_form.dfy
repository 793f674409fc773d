/** client/src/components/papers/PaperForm.js: the upload and edit form of
    a paper: the checks on a chosen file, the cascading course → semester →
    subject selects, and what a submit sends to the server. */
module PaperForm {
  import opened Wrappers
  import opened Schema
  import Upload
  import Text
  import PaperRoutes

  datatype FormData = FormData(title: string, year: string, examType: string, subject: string,
                               semester: string, course: string, file: Option<Upload.File>)

  const EmptyForm := FormData("", "", "", "", "", "", None)

  /** The form's state: its fields and the file error shown under them. */
  datatype Form = Form(data: FormData, fileError: string)

  /** The `name` attributes of the form's inputs. */
  datatype Input = TitleInput | YearInput | ExamTypeInput | CourseInput | SemesterInput | SubjectInput | FileInput

  /** The client's size limit, 5 MiB. */
  const MaxClientSize: nat := 5 * 1024 * 1024

  /** The client-side file check: exactly the `application/pdf` type, at most 5 MiB. */
  predicate ClientAccepts(f: Upload.File) {
    f.mimeType == "application/pdf" && f.size <= MaxClientSize
  }

  /** `onChange`: `value` is the new text of a field, `files` the chosen files. */
  function OnChange(st: Form, input: Input, value: string, files: seq<Upload.File>): (r: Form)
    ensures input == FileInput && files == [] ==> r == st
    ensures input == FileInput && files != [] && files[0].mimeType != "application/pdf" ==>
      r.data == st.data && r.fileError == "Please upload PDF files only"
    ensures input == FileInput && files != [] && files[0].mimeType == "application/pdf" && files[0].size > MaxClientSize ==>
      r.data == st.data && r.fileError == "File size should not exceed 5MB"
    ensures input == FileInput && files != [] && ClientAccepts(files[0]) ==>
      r.data == st.data.(file := Some(files[0])) && r.fileError == ""
    // a file is only ever stored after passing the client check
    ensures r.data.file != st.data.file ==> r.data.file.Some? && ClientAccepts(r.data.file.value)
    ensures input == CourseInput ==> r == st.(data := st.data.(course := value, semester := "", subject := ""))
    ensures input == SemesterInput ==> r == st.(data := st.data.(semester := value, subject := ""))
    ensures input == TitleInput ==> r == st.(data := st.data.(title := value))
    ensures input == YearInput ==> r == st.(data := st.data.(year := value))
    ensures input == ExamTypeInput ==> r == st.(data := st.data.(examType := value))
    ensures input == SubjectInput ==> r == st.(data := st.data.(subject := value))
  {
    match input
    case FileInput =>
      if files == [] then st
      else if files[0].mimeType != "application/pdf" then st.(fileError := "Please upload PDF files only")
      else if files[0].size > MaxClientSize then st.(fileError := "File size should not exceed 5MB")
      else Form(st.data.(file := Some(files[0])), "")
    case CourseInput => st.(data := st.data.(course := value, semester := "", subject := ""))
    case SemesterInput => st.(data := st.data.(semester := value, subject := ""))
    case TitleInput => st.(data := st.data.(title := value))
    case YearInput => st.(data := st.data.(year := value))
    case ExamTypeInput => st.(data := st.data.(examType := value))
    case SubjectInput => st.(data := st.data.(subject := value))
  }

  /** Choosing a course always leaves semester and subject to be chosen again. */
  lemma CourseChangeClearsBelow(st: Form, course: string, value: string, input: Input, files: seq<Upload.File>)
    ensures var r := OnChange(st, CourseInput, course, []);
      r.data.semester == "" && r.data.subject == "" && r.data.course == course
    ensures var r := OnChange(st, SemesterInput, value, []);
      r.data.subject == "" && r.data.course == st.data.course
  {
  }

  // ------------------------------------------------------------- submitting

  /** The names of the multipart parts and JSON keys the form sends. */
  datatype Part = TitlePart | YearPart | ExamTypePart | SubjectPart | SemesterPart | CoursePart | CollegePart

  datatype Request =
    /** `updatePaper(id, { title, year, examType, subject, semester, course })`: a plain
        object, but sent under `updatePaper`'s `multipart/form-data` header. */
    | UpdateMetadata(id: Id, parts: map<Part, string>)
    /** A multipart `FormData` body, to `addPaper` (no target) or `updatePaper(target)`. */
    | SendForm(target: Option<Id>, parts: map<Part, string>, file: Option<Upload.File>)

  /** What a submit did: the request sent (if any), the form afterwards,
      whether the edited paper was cleared and whether the form was hidden. */
  datatype Submitted = Submitted(request: Option<Request>, form: Form, clearsCurrent: bool, hidesForm: bool)

  /** The six text fields the form appends. */
  function Fields(d: FormData): map<Part, string> {
    map[TitlePart := d.title, YearPart := d.year, ExamTypePart := d.examType, SubjectPart := d.subject,
        SemesterPart := d.semester, CoursePart := d.course]
  }

  /** `onSubmit`, as written: the multipart body carries no college. */
  function OnSubmit(st: Form, current: Option<Doc<Paper>>): (r: Submitted)
    // editing without a new file: an update carrying the six fields; the form keeps its data
    ensures current.Some? && st.data.file.None? ==>
      r == Submitted(Some(UpdateMetadata(current.value.id, Fields(st.data))), st, true, true)
    // creating without a file: only the error is set
    ensures current.None? && st.data.file.None? ==>
      r == Submitted(None, st.(fileError := "Please select a PDF file"), false, false)
    // otherwise a multipart body with the six fields and the file; the form is emptied
    ensures st.data.file.Some? ==>
      && r.request == Some(SendForm(if current.Some? then Some(current.value.id) else None, Fields(st.data), st.data.file))
      && r.form == Form(EmptyForm, st.fileError) && r.clearsCurrent == current.Some? && r.hidesForm
    ensures r.request.Some? ==> CollegePart !in r.request.value.parts
  {
    if current.Some? && st.data.file.None? then
      Submitted(Some(UpdateMetadata(current.value.id, Fields(st.data))), st, true, true)
    else if current.None? && st.data.file.None? then
      Submitted(None, st.(fileError := "Please select a PDF file"), false, false)
    else
      var target := if current.Some? then Some(current.value.id) else None;
      Submitted(Some(SendForm(target, Fields(st.data), st.data.file)), Form(EmptyForm, st.fileError),
                current.Some?, true)
  }

  /** The course document a course select value names, from the loaded courses. */
  function FindCourse(courses: seq<Doc<Course>>, course: string): (r: Option<Doc<Course>>)
    ensures r.Some? ==> r.value in courses && IdString(r.value.id) == course
    ensures r.None? ==> forall i :: 0 <= i < |courses| ==> IdString(courses[i].id) != course
  {
    if courses == [] then None
    else if IdString(courses[0].id) == course then Some(courses[0])
    else FindCourse(courses[1..], course)
  }

  /** `onSubmit` with the college of the chosen course appended, which the
      create endpoint requires. */
  function OnSubmitWithCollege(st: Form, current: Option<Doc<Paper>>, courses: seq<Doc<Course>>): (r: Submitted)
    ensures st.data.file.Some? ==>
      && r.request.Some? && r.request.value.SendForm?
      && CollegePart in r.request.value.parts
      && r.request.value.parts == Fields(st.data)[CollegePart := r.request.value.parts[CollegePart]]
      && (FindCourse(courses, st.data.course).Some? ==>
            r.request.value.parts[CollegePart] == IdString(FindCourse(courses, st.data.course).value.val.college))
    ensures st.data.file.None? ==> r == OnSubmit(st, current)
  {
    var r := OnSubmit(st, current);
    if st.data.file.None? then r
    else
      var college := match FindCourse(courses, st.data.course)
        case Some(c) => IdString(c.val.college)
        case None => "";
      var target := if current.Some? then Some(current.value.id) else None;
      r.(request := Some(SendForm(target, Fields(st.data)[CollegePart := college], st.data.file)))
  }

  // ------------------------------------------------- what the server reads

  /** The value of a part, or "" (JavaScript's `undefined`) when it was not sent. */
  function Lookup(parts: map<Part, string>, p: Part): string {
    if p in parts then parts[p] else ""
  }

  /** `req.body` of POST /api/papers as multer fills it from the parts;
      no description part is ever sent. */
  function Received(parts: map<Part, string>): PaperRoutes.Fields {
    PaperRoutes.Fields(Lookup(parts, TitlePart), None, Lookup(parts, CollegePart), Lookup(parts, CoursePart),
                       Lookup(parts, YearPart), Lookup(parts, SemesterPart), Lookup(parts, SubjectPart))
  }

  /** Every upload from the form, as written, is refused: the server never
      receives a college. If the file gets past multer the answer is 400. */
  lemma FormUploadRefused(st: Form, db: Store, admin: Id, now: nat)
    requires st.data.file.Some?
    ensures var r := OnSubmit(st, None);
      var u := st.data.file.value;
      var res := PaperRoutes.Create(db, admin, Received(r.request.value.parts), u, now).result;
      && Received(r.request.value.parts).college == ""
      && res.Err?
      && (Upload.CheckFileType(u) && u.size <= Upload.MaxFileSize ==> res == Err(MissingFields))
  {
  }

  /** What the create endpoint reads from the corrected form's body: the six
      fields as typed, the chosen course's college, and no description. */
  lemma ReceivedWithCollege(st: Form, courses: seq<Doc<Course>>)
    requires st.data.file.Some?
    requires FindCourse(courses, st.data.course).Some?
    ensures Received(OnSubmitWithCollege(st, None, courses).request.value.parts) ==
      PaperRoutes.Fields(st.data.title, None, IdString(FindCourse(courses, st.data.course).value.val.college),
                         st.data.course, st.data.year, st.data.semester, st.data.subject)
  {
    var c := FindCourse(courses, st.data.course).value;
    var parts := OnSubmitWithCollege(st, None, courses).request.value.parts;
    assert parts == Fields(st.data)[CollegePart := IdString(c.val.college)];
  }

  /** With the chosen course's college appended, a filled-in form is no longer
      refused for a missing field. */
  lemma FormUploadWithCollegeHasAllFields(st: Form, courses: seq<Doc<Course>>, db: Store, admin: Id, now: nat)
    requires st.data.file.Some?
    requires st.data.title != "" && st.data.year != "" && st.data.semester != "" && st.data.subject != ""
    requires FindCourse(courses, st.data.course).Some?
    ensures var r := OnSubmitWithCollege(st, None, courses);
      var fields := Received(r.request.value.parts);
      && !PaperRoutes.AnyMissing(fields)
      && fields.college == IdString(FindCourse(courses, st.data.course).value.val.college)
      && PaperRoutes.Create(db, admin, fields, st.data.file.value, now).result != Err(MissingFields)
  {
    var c := FindCourse(courses, st.data.course).value;
    ReceivedWithCollege(st, courses);
    var fields := Received(OnSubmitWithCollege(st, None, courses).request.value.parts);
    assert IdString(c.id) == st.data.course;
    assert !PaperRoutes.AnyMissing(fields);
    PaperRoutes.MissingFieldsOnlyWhenMissing(db, admin, fields, st.data.file.value, now);
  }

  /** `req.body` of PUT /api/papers/:id: the server parses only JSON bodies,
      and `updatePaper` labels every body `multipart/form-data`, so no edit
      from the form arrives with any field at all. */
  function ReceivedByUpdate(req: Request): (f: PaperRoutes.Fields)
    ensures f == PaperRoutes.Fields("", None, "", "", "", "", "")
  {
    match req
    case UpdateMetadata(_, _) => PaperRoutes.Fields("", None, "", "", "", "", "")
    case SendForm(_, _, _) => PaperRoutes.Fields("", None, "", "", "", "", "")
  }

  /** Every edit from the form, as written, leaves the store as it was; the
      uploader gets the stored paper back unchanged. */
  lemma FormEditChangesNothing(st: Form, current: Doc<Paper>, db: Store, admin: Id)
    ensures var req := OnSubmit(st, Some(current)).request.value;
      var r := PaperRoutes.Update(db, admin, IdString(current.id), ReceivedByUpdate(req));
      && r.db == db
      && (current.id in db.papers && db.papers[current.id].uploadedBy == admin ==>
            r.result == Ok(Doc(current.id, db.papers[current.id])))
  {
    ParseIdString(current.id);
  }

  /** `req.body` if the metadata edit were sent as JSON (without the
      multipart header): the six fields the form holds, and no description.
      A multipart edit still arrives empty, since PUT has no multer. */
  function ReceivedByJsonUpdate(req: Request): (f: PaperRoutes.Fields)
    ensures req.UpdateMetadata? ==> f == Received(req.parts)
    ensures req.SendForm? ==> f == PaperRoutes.Fields("", None, "", "", "", "", "")
  {
    match req
    case UpdateMetadata(_, parts) => Received(parts)
    case SendForm(_, _, _) => PaperRoutes.Fields("", None, "", "", "", "", "")
  }

  /** With the edit sent as JSON, a metadata edit applies the typed title and
      year but, sending no college or description, never changes the
      paper's college or description, even when its course changes. */
  lemma EditKeepsCollege(st: Form, current: Doc<Paper>, db: Store, admin: Id)
    requires st.data.file.None?
    ensures var req := OnSubmit(st, Some(current)).request.value;
      var r := PaperRoutes.Update(db, admin, IdString(current.id), ReceivedByJsonUpdate(req));
      r.result.Ok? ==> (&& current.id in db.papers
                        && r.result.value.val.college == db.papers[current.id].college
                        && r.result.value.val.description == db.papers[current.id].description
                        && r.result.value.val.title == (if st.data.title != "" then st.data.title
                                                        else db.papers[current.id].title))
  {
    ParseIdString(current.id);
  }

  // ------------------------------------------- client and server file rules

  /** Whatever passes the client's size check passes the server's limit. */
  lemma ClientSizeWithinServerLimit(f: Upload.File)
    requires ClientAccepts(f)
    ensures f.size <= Upload.MaxFileSize
  {
  }

  /** A file the client accepts passes the server's filter exactly when its
      name has an extension containing "pdf" in any case. */
  lemma ClientAcceptedPassesServerIff(f: Upload.File)
    requires ClientAccepts(f)
    ensures Upload.CheckFileType(f) <==> Text.Contains(Text.Lower(Upload.ExtName(f.originalName)), "pdf")
  {
    Upload.ContainsAt("application/pdf", 12, "pdf");
  }

  /** The client accepts a file the server refuses: `scan`, declared as
      `application/pdf`, has no extension. */
  lemma FileRulesDisagree()
    ensures ClientAccepts(Upload.File("scan", "application/pdf", 1))
    ensures !Upload.CheckFileType(Upload.File("scan", "application/pdf", 1))
  {
    Upload.ExtNameNoDot("scan");
    assert Text.Lower("") == "";
    Upload.NoLetterP("");
  }

  /** And the server accepts files the client refuses: any other mimetype
      containing "pdf", such as `application/x-pdf`. */
  lemma ServerAcceptsWhatClientRefuses(stem: string, e: string, mime: string, size: nat)
    requires stem != [] && forall i :: 0 <= i < |stem| ==> stem[i] != '/'
    requires forall i :: 0 <= i < |e| ==> e[i] != '.' && e[i] != '/'
    requires Text.Contains(Text.Lower(e), "pdf")
    requires Text.Contains(mime, "pdf") && mime != "application/pdf"
    ensures Upload.CheckFileType(Upload.File(stem + "." + e, mime, size))
    ensures !ClientAccepts(Upload.File(stem + "." + e, mime, size))
  {
    Upload.AcceptsPdfInside(stem, e, mime, size);
  }
}
