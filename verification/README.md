# querynox question-paper catalog, modelled in Dafny

querynox is a catalog of previous-year question papers. It stores colleges, their
courses, each course's semesters and each semester's subjects, and PDF papers filed
under all four. The model covers three parts of it.

**The Express/Mongoose server.**
- Each route handler becomes a pure function over an abstract document store.
- The store is `Schema.Store`: one `map<Id, T>` per collection, the set of stored
  upload files, and a clock. The clock hands out ids and `createdAt` stamps in
  increasing order.
- A handler returns the new store together with either a document or an error. The
  errors are field errors (400), conflict or missing fields (400), not found (404),
  unauthorized (401), a rejected upload, and server error (500).

**The React/Redux client.**
- The five entity reducers are built from one generic slice update, `Slices.Apply`.
  `combineReducers` becomes `Reducers.RootReducer`.
- `getFilteredPapers` builds the query keys and issues the dispatches.
- The paper form covers the file pre-check, the course → semester → subject resets and
  the branches of a submit.
- The browse page covers its filter predicate, its cascading selects and its reset.
- The four management pages cover their search predicates, their form toggle and the
  Subjects page's course → semester reset.

**Where client and server meet.**
- Lemmas relate what the client sends to what the server does with it. Three of them
  show source defects; see Findings.

Conventions:
- An id travels as text. `Schema.ParseId` casts the text, and a malformed id is
  answered as the source's `catch` block answers a CastError. That is 404 where the
  handler tests `err.kind === 'ObjectId'` and 500 where it does not.
- A request field that is absent or empty is `""`, which is how the JavaScript
  truthiness tests treat it. Optional stored fields are `Option`.
- The caller of a paper write is a plain `admin` id. The current time (for file names)
  and the current year (for year options) are parameters.
- Case folding is ASCII-only (`Text.Lower`). Substring search is `Text.Contains`.

## Model

| member | source | states |
|---|---|---|
| CollegeRoutes.List | routes/colleges.js:11-19 | every stored college exactly once, sorted ascending by name |
| CollegeRoutes.Get | routes/colleges.js:24-40 | found iff the id casts and is stored; an absent or malformed id is 404 College not found |
| CollegeRoutes.Create | routes/colleges.js:45-84 | empty name or code gives the field errors before any lookup; with valid fields it fails iff some college has the same name OR the same code; success adds exactly one new college with the given fields and a fresh id; failure changes nothing |
| CollegeRoutes.Update | routes/colleges.js:89-139 | field errors first, then 404 for a missing target, then Conflict iff a DIFFERENT college has the name or code; success overwrites name, code and location of the target only; failure changes nothing |
| CollegeRoutes.Delete | routes/colleges.js:144-162 | removes exactly the named college, so the count drops by one and nothing cascades; an absent id is 404 and changes nothing |
| CollegeRoutes.UpdateKeepingOwnValues | routes/colleges.js:114-122 | re-submitting a college's own name and code is not a conflict |
| CollegeRoutes.CreateThenGet | routes/colleges.js:70-78 | a created college is found by GET under its new id |
| CollegeRoutes.DeleteOrphansCourses | routes/colleges.js:152 | deleting a college leaves a course pointing at no college |
| CollegeRoutes.ByNameIsTotalPreorder | routes/colleges.js:13 | the `{ name: 1 }` string order is total and transitive |
| CollegeRoutes.CreateKeepsValid | routes/colleges.js:63-76 | a create keeps the unique name and code indexes and the required fields |
| CollegeRoutes.UpdateKeepsValid | routes/colleges.js:116-128 | an update keeps them too, because only a different college is checked for a clash |
| CollegeRoutes.DeleteKeepsValid | routes/colleges.js:152 | a delete keeps them |
| CourseRoutes.List | routes/courses.js:12-20 | every course once, ascending by name |
| CourseRoutes.ListByCollege | routes/courses.js:25-35 | exactly the courses whose college is the parameter, by name; a malformed id is 500; a missing college gives an empty list |
| CourseRoutes.Get | routes/courses.js:40-56 | found iff stored; otherwise 404 Course not found |
| CourseRoutes.CreateThenGet | routes/courses.js:101-103 | a created course is found by GET under its new id (routes/courses.js:40-48) |
| CourseRoutes.Checks | routes/courses.js:66-69 | no field error iff name, code and college are non-empty and duration is numeric |
| CourseRoutes.Create | routes/courses.js:61-109 | field errors, then college existence (404), then Conflict iff the (code, college) pair exists; success adds one course; failure changes nothing |
| CourseRoutes.Update | routes/courses.js:114-174 | field errors, target 404, college 404, then Conflict only with a different course with the same (code, college); success overwrites exactly name, code, college and duration |
| CourseRoutes.Delete | routes/courses.js:179-197 | removes only the course; its semesters remain |
| CourseRoutes.SecondCreateConflicts | routes/courses.js:88-92 | creating the same (code, college) twice is refused the second time |
| CourseRoutes.ByNameIsTotalPreorder | routes/courses.js:14 | the name order is a total preorder |
| CourseRoutes.CreateKeepsValid | routes/courses.js:88-101 | a create keeps the (code, college) index and the required fields |
| CourseRoutes.UpdateKeepsValid | routes/courses.js:148-163 | an update keeps them |
| CourseRoutes.DeleteKeepsValid | routes/courses.js:187 | a delete keeps them |
| SemesterRoutes.List | routes/semesters.js:12-22 | every semester once, ascending by number |
| SemesterRoutes.ListByCourse | routes/semesters.js:27-37 | exactly the semesters of the course, ascending by number |
| SemesterRoutes.Get | routes/semesters.js:42-58 | found iff stored; otherwise 404 Semester not found |
| SemesterRoutes.CreateThenGet | routes/semesters.js:103-105 | a created semester is found by GET under its new id (routes/semesters.js:42-50) |
| SemesterRoutes.Checks | routes/semesters.js:68-71 | no field error iff name and course are non-empty and number and year are numeric |
| SemesterRoutes.Create | routes/semesters.js:63-111 | field errors, course 404, then Conflict iff the (number, course) pair exists; success adds one semester; failure changes nothing |
| SemesterRoutes.Update | routes/semesters.js:116-176 | target 404, then course 404, then Conflict excluding the target itself; success overwrites exactly name, number, course and year |
| SemesterRoutes.Delete | routes/semesters.js:181-199 | removes only the semester |
| SemesterRoutes.ByNumberIsTotalPreorder | routes/semesters.js:16 | the number order is a total preorder |
| SemesterRoutes.CreateKeepsValid | routes/semesters.js:90-103 | a create keeps the (number, course) index and the required fields |
| SemesterRoutes.UpdateKeepsValid | routes/semesters.js:150-165 | an update keeps them |
| SemesterRoutes.DeleteKeepsValid | routes/semesters.js:189 | a delete keeps them |
| SubjectRoutes.List | routes/subjects.js:13-24 | every subject once, ascending by name |
| SubjectRoutes.ListBySemester | routes/subjects.js:29-40 | exactly the subjects of the semester, by name |
| SubjectRoutes.ListByCourse | routes/subjects.js:45-56 | exactly the subjects whose own course field is the parameter, by name |
| SubjectRoutes.Get | routes/subjects.js:61-79 | found iff stored; otherwise 404 Subject not found |
| SubjectRoutes.CreateThenGet | routes/subjects.js:131-133 | a created subject is found by GET under its new id (routes/subjects.js:61-71) |
| SubjectRoutes.Checks | routes/subjects.js:89-92 | no field error iff name, code, semester and course are all non-empty |
| SubjectRoutes.CastCredits | models/Subject.js:22-24 | the `credits` Number cast: an empty value leaves it unset; text that is no integer numeral fails the save; a numeral is stored |
| SubjectRoutes.CastCreditsOfNumeral | models/Subject.js:22-24 | the numeral of any integer is stored as that integer |
| SubjectRoutes.Create | routes/subjects.js:84-139 | field errors, semester 404, course 404, then Conflict iff the (code, semester) pair exists; success adds one subject; failure changes nothing |
| SubjectRoutes.Update | routes/subjects.js:144-211 | target, semester and course 404 in that order; Conflict only with a different subject with the same (code, semester); success overwrites exactly name, code, semester, course and credits |
| SubjectRoutes.Delete | routes/subjects.js:216-234 | removes only the subject |
| SubjectRoutes.CreateMixesCourses | routes/subjects.js:105-121 | a subject can be created under a semester of one course and a different course, because the two are never compared |
| SubjectRoutes.ByNameIsTotalPreorder | routes/subjects.js:18 | the name order is a total preorder |
| SubjectRoutes.CreateKeepsValid | routes/subjects.js:117-131 | a create keeps the (code, semester) index and the required fields |
| SubjectRoutes.UpdateKeepsValid | routes/subjects.js:184-200 | an update keeps them |
| SubjectRoutes.DeleteKeepsValid | routes/subjects.js:224 | a delete keeps them |
| Schema.PutPaperKeepsValid | models/Paper.js:3-60 | papers have no unique index: storing any well-formed paper keeps the catalog invariant |
| Schema.PutNewPaperAllocated | models/Paper.js:56-59 | a paper stamped with the current clock keeps every id and date below the advanced clock |
| Schema.PutOldPaperAllocated | routes/papers.js:266 | re-saving a paper with its own date keeps every id and date below the clock |
| Schema.WithFilesAllocated | routes/papers.js:145 | adding or unlinking upload files leaves ids and dates alone |
| Schema.PutCollegeKeepsValid | models/College.js:3-13 | a well-formed college whose name and code no other college has can be stored without breaking the invariant |
| Schema.PutCourseKeepsValid | models/Course.js:27-28 | likewise for a course whose (code, college) pair no other course has |
| Schema.PutSemesterKeepsValid | models/Semester.js:27-28 | likewise for a semester whose (number, course) pair no other semester has |
| Schema.PutSubjectKeepsValid | models/Subject.js:31-32 | likewise for a subject whose (code, semester) pair no other subject has |
| Schema.ParseIdString | routes/papers.js:110 | the text of an id casts back to that id |
| Schema.ParseId | routes/papers.js:110-126 | the id cast of `findById`: it succeeds exactly on well-formed id text, and a malformed id is the `ObjectId` cast error the handler turns into 404 |
| Schema.Listing | routes/papers.js:63-68 | a listing is sorted, holds exactly the stored documents that pass the filter, and has distinct ids |
| Schema.ListingCongruent | routes/papers.js:91 | two filters that agree on every stored document list the same documents |
| Upload.ExtName | routes/papers.js:28 | Node's `path.extname`: empty, or a suffix of the name that starts with its only dot and contains no '/' |
| Upload.CheckFileType | routes/papers.js:34-47 | a file that passes the filter has a non-empty name whose extension is a dot and at least three characters, and a mime type at least three characters long |
| Upload.ExtNameOf | routes/papers.js:38 | `stem.ext` has extension `.ext` |
| Upload.ExtNameNoDot | routes/papers.js:38 | a name without a dot has no extension |
| Upload.ExtNameDotFile | routes/papers.js:38 | a dot-file such as `.pdf` has no extension |
| Upload.StoredPath | routes/papers.js:16-31 | the stored path `uploads/papers/file-<now><ext>` is never empty |
| Upload.AcceptedNameIsNotEmpty | routes/papers.js:34-47 | a file that passes the filter has a non-empty name with an extension |
| Upload.AcceptsUpperCaseExtension | routes/papers.js:38 | any `stem.ext` whose extension lower-cases to `pdf` (`exam.PDF`, `exam.Pdf`) passes with a mime type containing "pdf", because the extension is lower-cased |
| Upload.AcceptsPdfInside | routes/papers.js:36-40 | `/pdf/` is a substring test: any `stem.ext` whose lower-cased extension contains "pdf" anywhere (`exam.pdfx`) passes with any mime type containing "pdf" (`application/x-pdf`) |
| Upload.RejectsMimeWithoutP | routes/papers.js:40 | a mime type with no lower-case `p` is refused whatever the file is called |
| Upload.RejectsUpperCaseMimeType | routes/papers.js:40 | the mime type is not lower-cased: `APPLICATION/PDF` is refused |
| Upload.RejectsWithoutPdfExtension | routes/papers.js:38 | `exam.pdf.exe`, `.pdf` and `pdf` are all refused |
| Upload.RejectsDoubleExtension | routes/papers.js:38 | only the last extension counts: `exam.pdf.exe` is refused |
| Upload.RejectsDotFile | routes/papers.js:38 | a dot-file `.pdf` has no extension and is refused |
| Upload.RejectsBareName | routes/papers.js:38 | a name without a dot, such as `pdf`, is refused |
| PaperRoutes.List | routes/papers.js:61-74 | every paper once, newest first |
| PaperRoutes.NewestIsTotalPreorder | routes/papers.js:68 | the `createdAt: -1` order is a total preorder |
| PaperRoutes.Filter | routes/papers.js:79-103 | succeeds iff every non-empty key casts (else 500); the result is exactly the stored papers equal on each non-empty key among college, course, year, semester and subject, newest first |
| PaperRoutes.CastQueryCastable | routes/papers.js:83-91 | the Mongo filter casts iff each present key does |
| PaperRoutes.MatchesIffSelects | routes/papers.js:85-89 | the built filter selects exactly the papers agreeing on the present keys |
| PaperRoutes.EmptyFilterIsList | routes/papers.js:83-96 | a query with no keys returns exactly the full listing |
| PaperRoutes.Get | routes/papers.js:108-129 | found iff stored; an absent or malformed id is 404 Paper not found |
| PaperRoutes.CreateFault | routes/papers.js:151-180 | when no reference fails, college, course, semester and subject all cast and exist |
| PaperRoutes.SaveFault | routes/papers.js:142-180 | the first failing check, in this order: missing field (400), then the four references (404, or 500 when malformed), then the year cast (500) |
| PaperRoutes.Save | routes/papers.js:137-207 | after multer has stored the file: fails iff a check fails, and then removes the stored file and nothing else; success stores one paper with the request's fields, the file path, name and size, the caller as uploader, download count 0 and a fresh, newest date |
| PaperRoutes.Create | routes/papers.js:50-56 | the file filter runs before anything is written, so a non-PDF leaves the store untouched; a file over 10,000,000 bytes is rejected and its partial file removed; then the handler's checks in order; every later failure removes exactly the stored file |
| PaperRoutes.CreateKeepsValid | routes/papers.js:182-196 | a create keeps the catalog invariant |
| PaperRoutes.MissingFieldsOnlyWhenMissing | routes/papers.js:142-148 | a create answers "Please provide all required fields" iff the file passed multer and a required field is empty |
| PaperRoutes.CreateWithoutFile | routes/papers.js:142-147 | a create without a file is refused with 400 and writes nothing |
| PaperRoutes.CreateThenListFirst | routes/papers.js:68 | a paper just created heads the listing |
| PaperRoutes.LatestListedFirst | routes/papers.js:68 | a paper dated later than every other one heads the listing |
| PaperRoutes.CreateThenGet | routes/papers.js:182-198 | a created paper is found by GET under its id |
| PaperRoutes.FailedCreateKeepsStore | routes/papers.js:142-180 | a failed create leaves the store as it was, except that the request's own stored file is gone |
| PaperRoutes.CastId | routes/papers.js:85-89 | an id condition is absent for "" and casts iff the text is an id |
| PaperRoutes.CastYear | routes/papers.js:87 | the year condition is absent for "" and casts iff the text is an integer |
| PaperRoutes.Patch | routes/papers.js:232-263 | an empty reference keeps the current one; a given one must exist (404 of its kind, or Paper not found when malformed) |
| PaperRoutes.Edit | routes/papers.js:229-264 | fails iff a given reference fails (first failure in the order college, course, semester, subject) or the year does not cast; otherwise each truthy field replaces the stored one, the description whenever given, and everything else is kept |
| PaperRoutes.Update | routes/papers.js:213-276 | 404 for a missing paper, then 401 for a caller who is not the uploader; then the reference checks; succeeds iff the paper is the caller's and the edit succeeds; success overwrites each truthy field (the description whenever given) and keeps file, uploader, count and date; any failure stores nothing |
| PaperRoutes.UpdateKeepsValid | routes/papers.js:229-266 | an update keeps the catalog invariant |
| PaperRoutes.Delete | routes/papers.js:281-309 | 404, then 401 for a non-uploader; success removes exactly that paper and its file |
| PaperRoutes.DeleteKeepsValid | routes/papers.js:299 | a delete keeps the catalog invariant |
| PaperRoutes.Download | routes/papers.js:314-340 | for a stored paper the count goes up by exactly one before the file check; the file is served iff it exists, else 404 File not found |
| PaperRoutes.DownloadKeepsValid | routes/papers.js:323-324 | counting a download keeps the catalog invariant |
| PaperRoutes.DeleteThenGet | routes/papers.js:281-301 | after a successful delete, GET answers 404 |
| PaperRoutes.DownloadCountsMissingFile | routes/papers.js:322-329 | a download of a paper whose file is missing still counts, and answers 404 |
| Seqs.Filter | client/src/components/papers/BrowsePapers.js:86 | `Array.prototype.filter`: an order-preserving subsequence holding exactly the elements that pass, each as often as in the input |
| Sorting.SortBy | routes/colleges.js:13 | `.sort(...)` on a total preorder: a sorted permutation |
| Sorting.ByStringKey | routes/colleges.js:13 | ordering by a string field, as `.sort({ name: 1 })` does for colleges, courses and subjects, is a total preorder |
| Slices.Initial | client/src/reducers/paperReducer.js:13-18 | empty list, no current item, loading, no error |
| Slices.ReplaceById | client/src/reducers/paperReducer.js:43-50 | `map` by `_id`: same length, and each item is the payload iff its id matches |
| Slices.RemoveById | client/src/reducers/paperReducer.js:51-56 | `filter` by `_id`: the items without the id, in order, each as often as before |
| Slices.Apply | client/src/reducers/paperReducer.js:20-77 | each list operation does what it says and touches only the fields it names (for example an error clears loading and leaves the list); a delete keeps every other item as often as before |
| Slices.ReplaceKeepsIds | client/src/reducers/paperReducer.js:43-50 | an update never adds, drops or moves an item |
| Slices.ReplaceIdempotent | client/src/reducers/paperReducer.js:43-50 | updating twice with one payload is updating once |
| Slices.RemoveAbsentKeepsItems | client/src/reducers/paperReducer.js:51-56 | deleting an unknown id changes no item |
| Slices.RemoveAfterPrepend | client/src/reducers/paperReducer.js:37-56 | adding and then deleting an item leaves the list as deleting its id would |
| Reducers.CollegeReducer | client/src/reducers/collegeReducer.js:19-75 | each college action's effect on the slice; a delete keeps every other item as often as before; SET_LOADING only raises loading; any other action is a no-op |
| Reducers.CourseReducer | client/src/reducers/courseReducer.js:20-77 | each course action's effect on the slice, where GET_COURSES and GET_COLLEGE_COURSES both replace the list; a delete keeps every other item as often as before; SET_LOADING only raises loading; any other action is a no-op |
| Reducers.SemesterReducer | client/src/reducers/semesterReducer.js:20-77 | each semester action's effect on the slice, where GET_SEMESTERS and GET_COURSE_SEMESTERS both replace the list; a delete keeps every other item as often as before; SET_LOADING only raises loading; any other action is a no-op |
| Reducers.SubjectReducer | client/src/reducers/subjectReducer.js:21-79 | each subject action's effect on the slice, where the three list actions all replace the list; a delete keeps every other item as often as before; SET_LOADING only raises loading; any other action is a no-op |
| Reducers.PaperReducer | client/src/reducers/paperReducer.js:20-77 | each paper action's effect on the slice, where GET_PAPERS and GET_FILTERED_PAPERS both replace the list; a delete keeps every other item as often as before; SET_LOADING only raises loading; any other action is a no-op |
| Reducers.InitialRoot | client/src/reducers/index.js:10-18 | every slice starts empty and loading |
| Reducers.RootReducer | client/src/reducers/index.js:10-18 | `combineReducers`: a slice changes only under its own entity's actions or SET_LOADING |
| Reducers.SetLoadingReachesEverySlice | client/src/actions/types.js:65 | the one SET_LOADING raises the flag of every slice and changes nothing else |
| Reducers.OtherSlicesUnchanged | client/src/reducers/index.js:10-18 | an entity action changes only its own slice |
| Reducers.PaperActionOnly | client/src/reducers/index.js:10-18 | a paper action is handled by the paper reducer alone; the other four slices stay as they were |
| Reducers.UnhandledIsNoOp | client/src/reducers/index.js:10-18 | an action that no modelled slice handles leaves the state as it was |
| PaperActions.QueryPairs | client/src/actions/paperActions.js:58-65 | every pair carries its own key's truthy filter, and the keys come in strictly increasing order college, course, year, semester, subject |
| PaperActions.QueryPairsCarryFilters | client/src/actions/paperActions.js:60-65 | a key is sent with its filter iff that filter is truthy |
| PaperActions.QueryPairsDropExamType | client/src/actions/paperActions.js:58-65 | no examType key is ever sent |
| PaperActions.ServerReceivesFilters | client/src/actions/paperActions.js:61-67 | the filter endpoint reads back exactly the five filters the caller gave |
| PaperActions.ReadBack | client/src/actions/paperActions.js:67 | a key sent once is read back with its value, and an unsent key is read as absent |
| PaperActions.FilterDispatches | client/src/actions/paperActions.js:54-78 | SET_LOADING, then GET_FILTERED_PAPERS with the server's result iff the request succeeds, else PAPER_ERROR with status 500 |
| PaperActions.FilteredPapersSettle | client/src/actions/paperActions.js:54-78 | afterwards the paper slice is not loading and holds the result (or the error), while the other slices stay loading |
| PaperForm.OnChange | client/src/components/papers/PaperForm.js:78-115 | a file of another type sets "Please upload PDF files only" and keeps the data; one over 5 MiB sets the size error; an accepted one clears the error and sets only the file; course clears semester and subject; semester clears subject; any other field sets only itself |
| PaperForm.CourseChangeClearsBelow | client/src/components/papers/PaperForm.js:99-111 | after a course change nothing below it is chosen; after a semester change the course is kept |
| PaperForm.OnSubmit | client/src/components/papers/PaperForm.js:117-167 | an edit without a file sends `updatePaper` the six fields (no college); a create without a file only sets "Please select a PDF file"; otherwise the six fields and the file are sent as multipart, the form is emptied and hidden, and no college is sent |
| PaperForm.OnSubmitWithCollege | client/src/components/papers/PaperForm.js:141-157 | the multipart body also carries the college of the chosen course |
| PaperForm.FormUploadRefused | client/src/components/papers/PaperForm.js:141-157 | no upload from the form as written succeeds, and once the file passes multer the answer is "Please provide all required fields" |
| PaperForm.ReceivedWithCollege | routes/papers.js:139 | the create handler reads the typed fields, the chosen course's college and no description from the corrected body |
| PaperForm.FormUploadWithCollegeHasAllFields | routes/papers.js:142 | with the college appended, a filled-in form is never refused for a missing field |
| PaperForm.ReceivedByUpdate | server.js:17 | `updatePaper` labels every body `multipart/form-data` and the only body parser reads JSON, so the update handler receives no field at all |
| PaperForm.FormEditChangesNothing | client/src/actions/paperActions.js:112-120 | every edit from the form, with or without a new file, leaves the store as it was, and the uploader gets the stored paper back unchanged |
| PaperForm.ReceivedByJsonUpdate | routes/papers.js:215 | sent as JSON, the metadata edit reaches the handler with the form's six fields and no description; a multipart edit still arrives empty |
| PaperForm.EditKeepsCollege | client/src/components/papers/PaperForm.js:121-130 | sent as JSON, a metadata edit applies the typed title but never changes the paper's college or description |
| PaperForm.ClientSizeWithinServerLimit | client/src/components/papers/PaperForm.js:91 | every file under the client's 5 MiB limit is under the server's 10,000,000-byte limit |
| PaperForm.ClientAcceptedPassesServerIff | routes/papers.js:34-47 | a file the client accepts passes the server exactly when its name's extension contains "pdf" |
| PaperForm.FileRulesDisagree | client/src/components/papers/PaperForm.js:85 | `scan` with `application/pdf` passes the client's check but not the server's |
| PaperForm.ServerAcceptsWhatClientRefuses | client/src/components/papers/PaperForm.js:85 | the other way round: any `stem.ext` whose extension contains "pdf", with a mime type containing "pdf" other than `application/pdf` (`exam.pdfx` with `application/x-pdf`), passes the server but not the client |
| BrowsePapers.FilteredPapers | client/src/components/papers/BrowsePapers.js:86-97 | exactly the loaded papers whose title contains the search term (ignoring case) and that match each non-empty filter, in loaded order, each as often as loaded |
| BrowsePapers.EmptyFiltersShowAll | client/src/components/papers/BrowsePapers.js:86-97 | with no search and no filter every paper is shown, in order |
| BrowsePapers.ExamTypeEmptiesList | client/src/components/papers/BrowsePapers.js:94 | papers carry no exam type, so any exam-type choice empties the list |
| BrowsePapers.BrowseAgreesWithServer | client/src/components/papers/BrowsePapers.js:90-93 | for select values that are ids and years, the browser's filter keeps exactly the papers the server's filter endpoint selects; the year comparison by numeral is comparison by value |
| BrowsePapers.IdTextAgrees | client/src/components/papers/BrowsePapers.js:90-92 | comparing `_id` texts is comparing the ids |
| BrowsePapers.Loaded | client/src/components/papers/BrowsePapers.js:39-61 | when the lists (re)load, both effects run: semester and subject are cleared and the options follow the course |
| BrowsePapers.ChangeFilter | client/src/components/papers/BrowsePapers.js:39-66 | a course change clears semester and subject and offers that course's semesters; a semester change clears the subject and offers that semester's subjects; other selects set only themselves; the options stay coherent |
| BrowsePapers.Reset | client/src/components/papers/BrowsePapers.js:68-77 | all five filters and the search are emptied |
| BrowsePapers.ResetShowsAll | client/src/components/papers/BrowsePapers.js:68-97 | after a reset every loaded paper is shown |
| BrowsePapers.OptionsBelongToChoice | client/src/components/papers/BrowsePapers.js:41-54 | the semester options belong to the chosen course and the subject options to the chosen semester |
| Choices.SemestersOf | client/src/components/papers/PaperForm.js:56-64 | the semesters of the chosen course, in order and each as often as loaded, or none while no course is chosen |
| Choices.SubjectsOf | client/src/components/papers/PaperForm.js:66-74 | the subjects of the chosen semester, in order and each as often as loaded, or none |
| Choices.YearOptions | client/src/components/papers/BrowsePapers.js:80-84 | twenty entries, the i-th being the current year minus i |
| Choices.YearOptionsDescend | client/src/components/papers/PaperForm.js:185-189 | the options strictly descend from the current year and hold exactly the last twenty years |
| Pages.ToggleForm | client/src/components/colleges/Colleges.js:18-21 | the form's visibility flips and any edited document is dropped |
| Pages.ToggleTwice | client/src/components/courses/Courses.js:26-29 | toggling twice restores visibility and leaves nothing being edited |
| Pages.MentionsIgnoresCase | client/src/components/courses/Courses.js:32-34 | the search is the same for a term and its lower-cased form |
| Pages.EmptyTermMentioned | client/src/components/semesters/Semesters.js:33 | the empty term is found in every field |
| CollegesPage.FilteredColleges | client/src/components/colleges/Colleges.js:23-28 | exactly the colleges whose name, code or (present) location mentions the term, in order, each as often as loaded |
| CollegesPage.EmptyTermShowsAll | client/src/components/colleges/Colleges.js:23-28 | an empty term shows every college |
| CollegesPage.ShowsCollegeAsWritten | client/src/components/colleges/Colleges.js:25-27 | the predicate as written throws exactly when neither name nor code matches and the location is absent; otherwise it agrees with the corrected predicate |
| CollegesPage.FilteredCollegesAsWritten | client/src/components/colleges/Colleges.js:23-28 | the filter as written throws iff some college makes the predicate throw; otherwise it gives the corrected list |
| CollegesPage.AsWrittenFailsOnUnlocated | client/src/components/colleges/Colleges.js:25-27 | one college without a location whose name and code do not mention the term makes the whole filter throw, wherever it sits in the list |
| CollegesPage.AsWrittenFailsWithoutLocation | client/src/components/colleges/Colleges.js:27 | searching "z" with one college `A`/`B` that has no location throws |
| CollegesPage.AsWrittenAgreesWhenLocated | client/src/components/colleges/Colleges.js:23-28 | when every college has a location, the page as written shows the corrected list |
| CoursesPage.FilteredCourses | client/src/components/courses/Courses.js:31-39 | exactly the courses whose name or code mentions the term and whose college matches the select, in order, each as often as loaded |
| CoursesPage.EmptyFiltersShowAll | client/src/components/courses/Courses.js:31-39 | no term and no college shows every course |
| CoursesPage.CollegeFilterNarrows | client/src/components/courses/Courses.js:36 | choosing a college keeps exactly that college's courses among those the term lists |
| SemestersPage.FilteredSemesters | client/src/components/semesters/Semesters.js:31-39 | exactly the semesters whose name mentions the term or whose number's numeral contains the raw term, and whose course matches, in order, each as often as loaded |
| SemestersPage.EmptyFiltersShowAll | client/src/components/semesters/Semesters.js:31-39 | no term and no course shows every semester |
| SemestersPage.IntToStringChars | client/src/components/semesters/Semesters.js:34 | a number's numeral holds only digits and '-' |
| SemestersPage.WordTermMatchesNameOnly | client/src/components/semesters/Semesters.js:33-34 | a term with any other character (a letter, a space) can match the name only |
| SemestersPage.NumberTermShowsSemester | client/src/components/semesters/Semesters.js:34 | typing a semester's number lists it, whatever its name |
| SubjectsPage.FilteredSubjects | client/src/components/subjects/Subjects.js:49-58 | exactly the subjects whose name or code mentions the term and whose course and semester match the selects, in order, each as often as loaded |
| SubjectsPage.EmptyFiltersShowAll | client/src/components/subjects/Subjects.js:49-58 | no term and nothing selected shows every subject |
| SubjectsPage.ChangeCourse | client/src/components/subjects/Subjects.js:32-42 | a course change empties the semester select and offers exactly that course's semesters, or none |
| SubjectsPage.ChangeSemester | client/src/components/subjects/Subjects.js:109-113 | choosing a semester (only possible under a course) sets it and keeps the options coherent |
| SubjectsPage.Initial | client/src/components/subjects/Subjects.js:22-24 | nothing selected and no semester offered |
| Text.ContainedChar | client/src/components/semesters/Semesters.js:34 | every character of a contained string occurs in the containing one |
| Text.LowerIdempotent | client/src/components/colleges/Colleges.js:25 | lower-casing twice is lower-casing once |
| Decimal.ParseIntToString | client/src/components/papers/BrowsePapers.js:93 | the numeral of an integer casts back to it |
| Decimal.ParseInt | routes/semesters.js:69-71 | the integer cast accepts exactly a numeral or a minus sign and a numeral, and only a minus sign gives a negative value |
| Decimal.NatToStringInjective | client/src/components/courses/Courses.js:36 | distinct ids have distinct texts |

## Left out

- Authentication. The auth middleware, tokens, the 401 for a missing token and
  `authActions.js` are not modelled. A paper write takes the caller's id as a parameter.
- Numbers. The `isNumeric` check and Mongoose's Number cast are modelled on integers
  only. Decimals, a leading '+', exponents and JSON number values are not. A body field
  sent as a JSON number (not text) is not modelled either.
- `populate`. It is not modelled, and neither is the crash it causes on the client when
  a referenced parent has been deleted. The model keeps the raw ids.
- Files. Streaming (`res.download`) and disk I/O are left out. The upload directory is
  a set of paths, and removing a file is removing its path.
- Paths. `Upload.ExtName` follows Node's `path.extname` for names without a trailing
  '/'. Upload names never end in one.
- Concurrency. The find-then-save races on the unique indexes are out of scope: requests
  are handled one at a time. Index enforcement at save time therefore never fires.
- Text. Case folding is ASCII-only, with no Unicode case mapping. URL encoding and
  decoding of query values is taken to be the identity.
- Presentation. The populate effect of the paper form, which fills the form from an
  edited paper, and `clearForm` are not modelled; they only copy values. Alerts,
  `window.confirm`, the `*Item.js` components and the entity forms other than the paper
  form are left out as well.
- The alert and auth reducers. They are only named in `Reducers.UnhandledIsNoOp`, as
  action types that no modelled slice handles.
- PaperRoutes.CreateWithoutFile: a request without a file is a separate function,
  because multer's file part is modelled as a parameter.
- PaperActions.FilterDispatches: the error dispatch carries the status of a server
  error only (500). Network failures with no response, where the source itself would
  throw on `err.response`, are not modelled.
- Schema.ParseId: an ObjectId is modelled as a decimal natural. The 24-hex-digit text
  form is not modelled; only "casts or is malformed" matters to the handlers.
- PaperForm.EditKeepsCollege: it is stated of the edit sent as JSON. As written, no
  edit from the form changes a paper at all (see Findings).
- Choices.YearOptions: the current year is a parameter. `new Date().getFullYear()` is
  not modelled.

## Findings

| source | as written | input that shows it | evidently intended | confidence | as-written member | corrected member |
|---|---|---|---|---|---|---|
| client/src/components/papers/PaperForm.js:141-157 | the multipart body of a new paper carries title, year, examType, subject, semester and course, but no college, while routes/papers.js:142 requires a college | any filled-in form with a PDF under 5 MiB | also send the college of the chosen course | high (not executed) | PaperForm.FormUploadRefused | PaperForm.OnSubmitWithCollege, with PaperForm.FormUploadWithCollegeHasAllFields |
| client/src/actions/paperActions.js:112-120 | `updatePaper` labels every body `multipart/form-data`, while server.js:17 parses only JSON and PUT /api/papers/:id has no multer, so the metadata edit of PaperForm.js:121-130 reaches routes/papers.js:229-266 with an empty body and the paper is saved unchanged | edit a paper's title without choosing a new file | send the metadata edit as JSON | high (not executed) | PaperForm.FormEditChangesNothing, with PaperForm.ReceivedByUpdate | PaperForm.ReceivedByJsonUpdate, with PaperForm.EditKeepsCollege |
| client/src/components/colleges/Colleges.js:27 | `college.location.toLowerCase()` is evaluated for every college whose name and code do not match, and location is optional (models/College.js:14-16) | a college `A`/`B` created without a location, and the search "z" | treat an absent location as not matching | medium (not executed) | CollegesPage.FilteredCollegesAsWritten, with CollegesPage.AsWrittenFailsOnUnlocated and CollegesPage.AsWrittenFailsWithoutLocation | CollegesPage.FilteredColleges, with CollegesPage.AsWrittenAgreesWhenLocated |
