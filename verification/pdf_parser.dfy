/** Text extraction and contact-info heuristics (utils/pdf_parser.py).

    The PDF and DOCX libraries and the file system are collaborators: a PDF
    reader yields the text of each page, a DOCX reader the text of each
    paragraph, and a plain read yields the file content.  The e-mail and
    phone regular expressions are collaborators too: each returns the first
    match in the text, if any.
 */
module DocumentParser {
  import opened Wrappers
  import opened Text
  import Sorting

  datatype Readers = Readers(
    pdfPages: string -> Result<seq<string>>,
    docxParagraphs: string -> Result<seq<string>>,
    readText: string -> Result<string>)

  datatype Finders = Finders(
    email: string -> Option<string>,
    phone: string -> Option<string>)

  /** The reader a file is sent to. */
  datatype FileKind = Pdf | Docx | PlainText

  /** The dictionary returned by `extract_cv_info`: all three keys are always
      present, each `None` unless something was found. */
  datatype CvInfo = CvInfo(name: Option<string>, email: Option<string>, phone: Option<string>)

  /** A path component that `pathlib` keeps: neither empty nor `.`. */
  predicate IsComponent(p: string) {
    p != "" && p != "."
  }

  /** Index of the last element before `upto` that satisfies `p`. */
  function LastWhere<T>(s: seq<T>, p: T -> bool, upto: nat): (r: Option<nat>)
    requires upto <= |s|
    ensures r.Some? ==> r.value < upto && p(s[r.value])
    ensures r.Some? ==> forall j :: r.value < j < upto ==> !p(s[j])
    ensures r.None? ==> forall j :: 0 <= j < upto ==> !p(s[j])
  {
    if upto == 0 then None
    else if p(s[upto - 1]) then Some(upto - 1)
    else LastWhere(s, p, upto - 1)
  }

  /** `Path(p).name`: the last '/'-separated component that is neither
      empty nor `.`, or "" when there is none. */
  function FileName(path: string): (r: string)
    ensures '/' !in r && r != "."
    ensures var parts := Split(path, '/');
      r == "" <==> forall i :: 0 <= i < |parts| ==> !IsComponent(parts[i])
    ensures var parts := Split(path, '/');
      r != "" ==> exists i :: 0 <= i < |parts| && parts[i] == r && forall j :: i < j < |parts| ==> !IsComponent(parts[j])
  {
    var parts := Split(path, '/');
    var k := LastWhere(parts, IsComponent, |parts|);
    if k.None? then ""
    else
      assert IsComponent(Split(path, '/')[k.value]);
      parts[k.value]
  }

  /** `Path(p).suffix`: the name from its last dot on, provided that dot is
      neither the first nor the last character of the name. */
  function Suffix(path: string): (r: string)
    ensures '/' !in r
    ensures var name := FileName(path);
      r != "" ==> && |r| >= 2 && r[0] == '.' && '.' !in r[1..]
                  && |r| < |name| && name[|name| - |r|..] == r
    ensures var name := FileName(path);
      r == "" <==> ('.' !in name || (|name| > 0 && name[|name| - 1] == '.') || (|name| > 0 && name[0] == '.' && '.' !in name[1..]))
  {
    var name := FileName(path);
    var i := LastIndexOf(name, '.');
    if 0 < i < |name| - 1 then
      assert '.' !in name[i + 1..] by {
        var tail := name[i + 1..];
        assert forall k :: 0 <= k < |tail| ==> tail[k] == name[i + 1 + k];
      }
      name[i..]
    else
      assert i == 0 ==> '.' !in name[1..] by {
        if i == 0 {
          var tail := name[1..];
          assert forall k :: 0 <= k < |tail| ==> tail[k] == name[1 + k];
        }
      }
      ""
  }

  /** Dispatch on the lower-cased suffix. */
  function KindOf(extension: string): (r: Option<FileKind>)
    ensures r == Some(Pdf) <==> extension == ".pdf"
    ensures r == Some(Docx) <==> extension == ".docx" || extension == ".doc"
    ensures r == Some(PlainText) <==> extension == ".txt"
  {
    if extension == ".pdf" then Some(Pdf)
    else if extension == ".docx" || extension == ".doc" then Some(Docx)
    else if extension == ".txt" then Some(PlainText)
    else None
  }

  /** Each page's text followed by a newline, all concatenated. */
  function PagesWithNewlines(pages: seq<string>): string {
    if |pages| == 0 then "" else pages[0] + "\n" + PagesWithNewlines(pages[1..])
  }

  /** The text of a PDF: pages each followed by a newline, then stripped. */
  function PdfText(pages: seq<string>): (r: string)
    ensures IsStripped(r)
    ensures IsTrimmedSlice(PagesWithNewlines(pages), r)
  {
    Strip(PagesWithNewlines(pages))
  }

  /** The text of a DOCX: paragraphs joined by newlines, then stripped. */
  function DocxText(paragraphs: seq<string>): (r: string)
    ensures IsStripped(r)
    ensures IsTrimmedSlice(Join(paragraphs, "\n"), r)
  {
    Strip(Join(paragraphs, "\n"))
  }

  lemma {:induction false} PagesWithNewlinesIsJoin(pages: seq<string>)
    requires |pages| > 0
    ensures PagesWithNewlines(pages) == Join(pages, "\n") + "\n"
  {
    if |pages| > 1 {
      PagesWithNewlinesIsJoin(pages[1..]);
    }
  }

  /** The per-page newline is a separator in disguise: reading the same
      strings as PDF pages or as DOCX paragraphs gives the same text. */
  lemma PdfTextIsDocxText(pages: seq<string>)
    ensures PdfText(pages) == DocxText(pages)
  {
    if |pages| > 0 {
      PagesWithNewlinesIsJoin(pages);
      StripDropsTrailingSpace(Join(pages, "\n"), '\n');
    }
  }

  /** `extract_text`: a PDF or DOCX reader error is re-raised with a
      reader-specific prefix; a plain-text read error propagates as is;
      any other suffix is rejected. */
  function ExtractText(rd: Readers, path: string): (r: Result<string>)
    ensures KindOf(Lower(Suffix(path))).None? ==> r == Err("Unsupported file type: " + Lower(Suffix(path)))
    ensures KindOf(Lower(Suffix(path))) == Some(PlainText) ==> r == rd.readText(path)
    ensures KindOf(Lower(Suffix(path))) == Some(Pdf) ==>
      (r.Ok? <==> rd.pdfPages(path).Ok?) &&
      (r.Ok? ==> r.value == PdfText(rd.pdfPages(path).value) && IsStripped(r.value)) &&
      (r.Err? ==> r.msg == "Error reading PDF: " + rd.pdfPages(path).msg)
    ensures KindOf(Lower(Suffix(path))) == Some(Docx) ==>
      (r.Ok? <==> rd.docxParagraphs(path).Ok?) &&
      (r.Ok? ==> r.value == DocxText(rd.docxParagraphs(path).value) && IsStripped(r.value)) &&
      (r.Err? ==> r.msg == "Error reading DOCX: " + rd.docxParagraphs(path).msg)
  {
    var extension := Lower(Suffix(path));
    match KindOf(extension)
    case Some(Pdf) =>
      (match rd.pdfPages(path)
       case Ok(pages) => Ok(PdfText(pages))
       case Err(e) => Err("Error reading PDF: " + e))
    case Some(Docx) =>
      (match rd.docxParagraphs(path)
       case Ok(paragraphs) => Ok(DocxText(paragraphs))
       case Err(e) => Err("Error reading DOCX: " + e))
    case Some(PlainText) => rd.readText(path)
    case None => Err("Unsupported file type: " + extension)
  }

  /** Upper-case suffixes are dispatched like lower-case ones. */
  lemma SuffixCaseIgnored(rd: Readers, path: string, other: string)
    requires Lower(Suffix(path)) == Lower(Suffix(other))
    requires rd.pdfPages(path) == rd.pdfPages(other)
    requires rd.docxParagraphs(path) == rd.docxParagraphs(other)
    requires rd.readText(path) == rd.readText(other)
    ensures ExtractText(rd, path) == ExtractText(rd, other)
  {
  }

  /** A line that the name heuristic accepts, once stripped. */
  predicate LooksLikeName(line: string) {
    var t := Strip(line);
    t != "" && |Words(t)| <= 4 && !HasDigit(t)
  }

  /** Index of the first element at or after `from` that satisfies `p`. */
  function FirstWhere<T>(s: seq<T>, p: T -> bool, from: nat): (r: Option<nat>)
    requires from <= |s|
    ensures r.Some? ==> from <= r.value < |s| && p(s[r.value])
    ensures r.Some? ==> forall j :: from <= j < r.value ==> !p(s[j])
    ensures r.None? ==> forall j :: from <= j < |s| ==> !p(s[j])
    decreases |s| - from
  {
    if from == |s| then None
    else if p(s[from]) then Some(from)
    else FirstWhere(s, p, from + 1)
  }

  /** `extract_cv_info`: e-mail and phone are the first pattern matches;
      the name is the first of the first five newline-separated lines that
      is non-empty, has at most four words and no digit once stripped. */
  function ExtractCvInfo(f: Finders, text: string): (r: CvInfo)
    ensures r.email == f.email(text) && r.phone == f.phone(text)
    ensures var lines := Split(text, '\n');
      r.name.Some? ==>
        exists i :: (0 <= i < 5 && i < |lines| && LooksLikeName(lines[i]) && r.name.value == Strip(lines[i])
                     && forall j :: 0 <= j < i ==> !LooksLikeName(lines[j]))
    ensures var lines := Split(text, '\n');
      r.name.None? <==> forall i :: 0 <= i < 5 && i < |lines| ==> !LooksLikeName(lines[i])
  {
    var all := Split(text, '\n');
    var lines := Prefix(all, 5);
    var k := FirstWhere(lines, LooksLikeName, 0);
    assert forall i :: 0 <= i < |lines| ==> lines[i] == all[i];
    assert |lines| == if |all| < 5 then |all| else 5;
    match k
    case None => CvInfo(None, f.email(text), f.phone(text))
    case Some(i) =>
      assert 0 <= i < 5 && i < |all| && LooksLikeName(all[i]);
      assert forall j :: 0 <= j < i ==> !LooksLikeName(all[j]);
      CvInfo(Some(Strip(all[i])), f.email(text), f.phone(text))
  }

  /** A returned name is stripped, non-empty, digit-free and at most four
      words long, and stripping it again changes nothing. */
  lemma NameIsClean(f: Finders, text: string)
    requires ExtractCvInfo(f, text).name.Some?
    ensures var n := ExtractCvInfo(f, text).name.value;
      n != "" && IsStripped(n) && Strip(n) == n && !HasDigit(n) && |Words(n)| <= 4
  {
    var lines := Split(text, '\n');
    var n := ExtractCvInfo(f, text).name.value;
    var i :| 0 <= i < 5 && i < |lines| && LooksLikeName(lines[i]) && n == Strip(lines[i]);
    StripIdempotent(lines[i]);
  }
}
