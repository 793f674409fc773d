/** The multer configuration of routes/papers.js: where an upload is
    stored, which files `checkFileType` lets through, and the size limit. */
module Upload {
  import Text
  import Decimal

  /** `limits: { fileSize: 10000000 }` (bytes). */
  const MaxFileSize: nat := 10000000

  /** The part of the multipart request multer looks at. */
  datatype File = File(originalName: string, mimeType: string, size: nat)

  /** Position of the last `c` in `s`, or -1. */
  function LastIndexOf(s: string, c: char): (r: int)
    ensures -1 <= r < |s|
    ensures r >= 0 ==> s[r] == c
    ensures forall i :: r < i < |s| ==> s[i] != c
  {
    if s == [] then -1
    else if s[|s| - 1] == c then |s| - 1
    else LastIndexOf(s[..|s| - 1], c)
  }

  /** The last occurrence is determined by its two defining properties. */
  lemma LastIndexOfIs(s: string, c: char, i: int)
    requires -1 <= i < |s|
    requires i >= 0 ==> s[i] == c
    requires forall j :: i < j < |s| ==> s[j] != c
    ensures LastIndexOf(s, c) == i
  {
  }

  /** Node's `path.extname`: from the last dot of the base name (the part
      after the last '/'), unless that dot is the base name's first
      character or the base name is `..`. */
  function ExtName(name: string): (ext: string)
    ensures ext != [] ==> ext[0] == '.' && |ext| <= |name| && ext == name[|name| - |ext|..]
    ensures forall i :: 0 < i < |ext| ==> ext[i] != '.' && ext[i] != '/'
  {
    var slash := LastIndexOf(name, '/');
    var base := name[slash + 1..];
    var dot := LastIndexOf(base, '.');
    if dot <= 0 || base == ".." then "" else base[dot..]
  }

  /** A name `stem.ext` whose stem is a non-empty file name has extension `.ext`. */
  lemma ExtNameOf(stem: string, e: string)
    requires stem != [] && forall i :: 0 <= i < |stem| ==> stem[i] != '/'
    requires forall i :: 0 <= i < |e| ==> e[i] != '.' && e[i] != '/'
    requires stem + "." + e != ".."
    ensures ExtName(stem + "." + e) == "." + e
  {
    var name := stem + "." + e;
    LastIndexOfIs(name, '/', -1);
    assert name[0..] == name;
    LastIndexOfIs(name, '.', |stem|);
    assert name[|stem|..] == "." + e;
  }

  /** A name without a dot has no extension. */
  lemma ExtNameNoDot(name: string)
    requires forall i :: 0 <= i < |name| ==> name[i] != '.'
    ensures ExtName(name) == ""
  {
    var slash := LastIndexOf(name, '/');
    var base := name[slash + 1..];
    LastIndexOfIs(base, '.', -1);
  }

  /** A dot-file such as `.pdf` has no extension. */
  lemma ExtNameDotFile(e: string)
    requires forall i :: 0 <= i < |e| ==> e[i] != '.' && e[i] != '/'
    ensures ExtName("." + e) == ""
  {
    var name := "." + e;
    LastIndexOfIs(name, '/', -1);
    assert name[0..] == name;
    LastIndexOfIs(name, '.', 0);
  }

  /** `checkFileType`: the regular expression /pdf/ must match both the
      lower-cased extension and the declared mimetype, anywhere inside them. */
  predicate CheckFileType(f: File): (ok: bool)
    // a passing name has an extension of a dot and at least three more characters
    ensures ok ==> f.originalName != "" && |ExtName(f.originalName)| >= 4
    ensures ok ==> |f.mimeType| >= 3
  {
    var lowered := Text.Lower(ExtName(f.originalName));
    if Text.Contains(lowered, "pdf") && Text.Contains(f.mimeType, "pdf") then
      Text.ContainsLength(f.mimeType, "pdf");
      Text.ContainsLength(lowered, "pdf");
      Text.ContainsPastHead(lowered, "pdf");
      Text.ContainsLength(lowered[1..], "pdf");
      true
    else false
  }

  /** The disk-storage file name `file-<Date.now()><extname>` under uploads/papers. */
  function StoredPath(f: File, now: nat): (p: string)
    ensures p != ""
  {
    "uploads/papers/file-" + Decimal.NatToString(now) + ExtName(f.originalName)
  }

  /** A file passes the filter only if its name has a non-empty extension. */
  lemma AcceptedNameIsNotEmpty(f: File)
    requires CheckFileType(f)
    ensures ExtName(f.originalName) != ""
    ensures f.originalName != ""
  {
  }

  /** `t` occurs in `s` if it occurs in a suffix of `s`. */
  lemma {:induction false} ContainsSuffix(s: string, i: nat, t: string)
    requires i <= |s|
    requires Text.Contains(s[i..], t)
    ensures Text.Contains(s, t)
    decreases i
  {
    if i > 0 {
      assert s[1..][i - 1..] == s[i..];
      ContainsSuffix(s[1..], i - 1, t);
    }
  }

  /** `t` occurs in `s` wherever `s` spells it out. */
  lemma ContainsAt(s: string, i: nat, t: string)
    requires i + |t| <= |s| && s[i..i + |t|] == t
    ensures Text.Contains(s, t)
  {
    assert s[i..][..|t|] == t;
    assert Text.Contains(s[i..], t);
    ContainsSuffix(s, i, t);
  }

  /** A string without the letter 'p' contains no "pdf". */
  lemma {:induction false} NoLetterP(s: string)
    requires forall i :: 0 <= i < |s| ==> s[i] != 'p'
    ensures !Text.Contains(s, "pdf")
    decreases |s|
  {
    if |s| >= 3 {
      assert s[..3][0] == s[0];
    }
    if s != [] {
      NoLetterP(s[1..]);
    }
  }

  /** Neither test needs an exact match: a file whose extension contains
      "pdf" anywhere, in any case, and whose mimetype contains "pdf"
      anywhere passes (`exam.pdfx` with `application/x-pdf`, say). */
  lemma AcceptsPdfInside(stem: string, e: string, mime: string, size: nat)
    requires stem != [] && forall i :: 0 <= i < |stem| ==> stem[i] != '/'
    requires forall i :: 0 <= i < |e| ==> e[i] != '.' && e[i] != '/'
    requires Text.Contains(Text.Lower(e), "pdf") && Text.Contains(mime, "pdf")
    ensures CheckFileType(File(stem + "." + e, mime, size))
  {
    Text.ContainedChar(Text.Lower(e), "pdf", 0);
    ExtNameOf(stem, e);
    var lowered := "." + Text.Lower(e);
    assert Text.Lower("." + e) == lowered;
    assert lowered[1..] == Text.Lower(e);
    ContainsSuffix(lowered, 1, "pdf");
  }

  /** The extension test ignores case: `.PDF` or `.Pdf` passes like `.pdf`. */
  lemma AcceptsUpperCaseExtension(stem: string, e: string, mime: string, size: nat)
    requires stem != [] && forall i :: 0 <= i < |stem| ==> stem[i] != '/'
    requires Text.Lower(e) == "pdf"
    requires Text.Contains(mime, "pdf")
    ensures CheckFileType(File(stem + "." + e, mime, size))
  {
    assert |e| == 3;
    forall i | 0 <= i < |e|
      ensures e[i] != '.' && e[i] != '/'
    {
      assert Text.Lower(e)[i] == Text.LowerChar(e[i]);
    }
    Text.ContainsSelf("pdf");
    AcceptsPdfInside(stem, e, mime, size);
  }

  /** A mime type without a lower-case 'p' is refused, whatever the name. */
  lemma RejectsMimeWithoutP(f: File)
    requires forall i :: 0 <= i < |f.mimeType| ==> f.mimeType[i] != 'p'
    ensures !CheckFileType(f)
  {
    NoLetterP(f.mimeType);
  }

  /** The mimetype test is case-sensitive. */
  lemma RejectsUpperCaseMimeType()
    ensures !CheckFileType(File("exam.pdf", "APPLICATION/PDF", 1))
  {
    RejectsMimeWithoutP(File("exam.pdf", "APPLICATION/PDF", 1));
  }

  /** Only the last extension counts, and a bare `.pdf` or `pdf` has none. */
  lemma RejectsWithoutPdfExtension()
    ensures !CheckFileType(File("exam.pdf.exe", "application/pdf", 1))
    ensures !CheckFileType(File(".pdf", "application/pdf", 1))
    ensures !CheckFileType(File("pdf", "application/pdf", 1))
  {
    RejectsDoubleExtension();
    RejectsDotFile();
    RejectsBareName();
  }

  lemma RejectsDoubleExtension()
    ensures !CheckFileType(File("exam.pdf.exe", "application/pdf", 1))
  {
    ExtNameOf("exam.pdf", "exe");
    assert "exam.pdf" + "." + "exe" == "exam.pdf.exe";
    assert Text.Lower(".exe") == ".exe";
    NoLetterP(".exe");
  }

  lemma RejectsDotFile()
    ensures !CheckFileType(File(".pdf", "application/pdf", 1))
  {
    ExtNameDotFile("pdf");
    assert "." + "pdf" == ".pdf";
    assert Text.Lower("") == "";
    NoLetterP("");
  }

  lemma RejectsBareName()
    ensures !CheckFileType(File("pdf", "application/pdf", 1))
  {
    ExtNameNoDot("pdf");
    assert Text.Lower("") == "";
    NoLetterP("");
  }
}
