/** Contact extraction and format routing of the résumé parser
    (src/utils/resumeParser.ts). PDF and DOCX text extraction are library
    calls and are not modelled: the text each extractor would return is a
    parameter. */
module ResumeParser {
  import opened Text
  import opened Regex
  import opened Wrappers

  datatype ContactInfo = ContactInfo(name: string, email: string, phone: string)

  datatype ParsedResume = ParsedResume(text: string, name: string, email: string, phone: string)

  /** Which extractor a file is routed to. */
  datatype FileKind = Pdf | Docx

  datatype ParseOutcome = Unsupported(message: string) | Parsed(resume: ParsedResume)

  const PdfMime := "application/pdf"
  const DocxMime := "application/vnd.openxmlformats-officedocument.wordprocessingml.document"
  const UnsupportedMessage := "Unsupported file format. Please upload PDF or DOCX."

  // ---------------------------------------------------------------------------
  // name

  /** `lines.filter(line => line.trim().length > 0)`, as written. */
  function TrimFilter(lines: seq<string>): seq<string> {
    if |lines| == 0 then []
    else (if |Trim(lines[0])| > 0 then [lines[0]] else []) + TrimFilter(lines[1..])
  }

  /** The same filter stated on the lines themselves: keep the lines that
      are not all white space. */
  function NonBlankLines(lines: seq<string>): (r: seq<string>)
    ensures forall k :: 0 <= k < |r| ==> !IsBlank(r[k])
  {
    if |lines| == 0 then []
    else if !IsBlank(lines[0]) then [lines[0]] + NonBlankLines(lines[1..])
    else NonBlankLines(lines[1..])
  }

  /** A trimmed line is non-empty exactly when the line is not blank, so the
      two filters agree. */
  lemma {:induction false} TrimFilterIsNonBlankLines(lines: seq<string>)
    ensures TrimFilter(lines) == NonBlankLines(lines)
  {
    if |lines| > 0 {
      TrimEmptyIffBlank(lines[0]);
      TrimFilterIsNonBlankLines(lines[1..]);
    }
  }

  /** The filter keeps the lines in order: it is empty exactly when every
      line is blank, and otherwise starts with the first non-blank line. */
  lemma {:induction false} NonBlankLinesFirst(lines: seq<string>)
    ensures NonBlankLines(lines) == [] <==> forall k :: 0 <= k < |lines| ==> IsBlank(lines[k])
    ensures NonBlankLines(lines) != [] ==>
              exists k :: 0 <= k < |lines| && lines[k] == NonBlankLines(lines)[0]
                          && forall j :: 0 <= j < k ==> IsBlank(lines[j])
  {
    NonBlankLinesEmptyIff(lines);
    if NonBlankLines(lines) != [] {
      var k := NonBlankLinesHead(lines);
    }
  }

  lemma {:induction false} NonBlankLinesEmptyIff(lines: seq<string>)
    ensures NonBlankLines(lines) == [] <==> forall k :: 0 <= k < |lines| ==> IsBlank(lines[k])
  {
    if |lines| > 0 {
      var tail := lines[1..];
      NonBlankLinesEmptyIff(tail);
      assert forall k :: 0 <= k < |tail| ==> tail[k] == lines[k + 1];
      if IsBlank(lines[0]) {
        assert NonBlankLines(lines) == NonBlankLines(tail);
        assert (forall k :: 0 <= k < |lines| ==> IsBlank(lines[k])) <==> (forall k :: 0 <= k < |tail| ==> IsBlank(tail[k]));
      }
    }
  }

  /** The first kept line is some line with only blank lines before it. */
  lemma {:induction false} NonBlankLinesHead(lines: seq<string>) returns (k: nat)
    requires NonBlankLines(lines) != []
    ensures k < |lines| && lines[k] == NonBlankLines(lines)[0]
    ensures forall j :: 0 <= j < k ==> IsBlank(lines[j])
  {
    if IsBlank(lines[0]) {
      assert NonBlankLines(lines) == NonBlankLines(lines[1..]);
      var k1 := NonBlankLinesHead(lines[1..]);
      BlankShift(lines, k1);
      k := k1 + 1;
    } else {
      k := 0;
    }
  }

  lemma BlankShift(lines: seq<string>, k: nat)
    requires k < |lines| - 1 && IsBlank(lines[0])
    requires forall j :: 0 <= j < k ==> IsBlank(lines[1..][j])
    ensures lines[k + 1] == lines[1..][k]
    ensures forall j :: 0 <= j < k + 1 ==> IsBlank(lines[j])
  {
    forall j | 0 < j < k + 1 ensures IsBlank(lines[j]) {
      assert lines[j] == lines[1..][j - 1];
    }
  }


  /** The name heuristic: the first white-space-separated word of the first
      non-blank line, or empty when every line is blank. */
  function ExtractName(text: string): string {
    var lines := NonBlankLines(SplitOn(text, '\n'));
    if |lines| > 0 then SplitWs(Trim(lines[0]))[0] else ""
  }

  /** The name is the longest white-space-free prefix of the first
      non-blank line once trimmed: non-empty, free of white space, and
      followed in that line by white space or nothing. */
  lemma ExtractNameIsFirstWord(text: string)
    ensures NoSpace(ExtractName(text))
    ensures var lines := NonBlankLines(SplitOn(text, '\n'));
            lines != [] ==>
              var t := Trim(lines[0]);
              && ExtractName(text) != ""
              && ExtractName(text) <= t
              && (|ExtractName(text)| == |t| || IsSpace(t[|ExtractName(text)|]))
  {
    var lines := NonBlankLines(SplitOn(text, '\n'));
    if lines != [] {
      var t := Trim(lines[0]);
      TrimEmptyIffBlank(lines[0]);
      SplitWsFirstIsPrefix(t);
    }
  }

  /** A character of a joined text is the separator or a character of one of the parts. */
  lemma {:induction false} InJoin(parts: seq<string>, c: char, x: char)
    requires |parts| >= 1 && x in Join(parts, [c])
    ensures x == c || exists k :: 0 <= k < |parts| && x in parts[k]
  {
    if |parts| > 1 {
      var tail := Join(parts[1..], [c]);
      assert Join(parts, [c]) == parts[0] + [c] + tail;
      if x in parts[0] {
      } else if x == c {
      } else {
        assert x in tail;
        InJoin(parts[1..], c, x);
        var k :| 0 <= k < |parts[1..]| && x in parts[1..][k];
        assert x in parts[k + 1];
      }
    }
  }

  /** The name comes out empty exactly when the whole text is blank. */
  lemma ExtractNameEmptyIffBlank(text: string)
    ensures ExtractName(text) == "" <==> IsBlank(text)
  {
    var pieces := SplitOn(text, '\n');
    var lines := NonBlankLines(pieces);
    ExtractNameIsFirstWord(text);
    NonBlankLinesFirst(pieces);
    if IsBlank(text) {
      forall k | 0 <= k < |pieces| ensures IsBlank(pieces[k]) {
        forall j | 0 <= j < |pieces[k]| ensures IsSpace(pieces[k][j]) {
          SplitOnPiecesFromInput(text, '\n', k, j);
        }
      }
    } else {
      var p :| 0 <= p < |text| && !IsSpace(text[p]);
      JoinSplitOn(text, '\n');
      assert text[p] in Join(pieces, "\n");
      InJoin(pieces, '\n', text[p]);
      var k :| 0 <= k < |pieces| && text[p] in pieces[k];
      assert !IsBlank(pieces[k]);
    }
  }

  // ---------------------------------------------------------------------------
  // contact info

  /** `extractContactInfo`: the leftmost email match, the leftmost phone
      match and the name heuristic, each empty when nothing is found. */
  function ExtractContactInfo(text: string): (c: ContactInfo)
    ensures c.email == "" <==> Search(EmailPattern, text, 0).None?
    ensures var m := Search(EmailPattern, text, 0); m.Some? ==> c.email == text[m.value.0..m.value.1]
    ensures c.phone == "" <==> Search(PhonePattern, text, 0).None?
    ensures var m := Search(PhonePattern, text, 0); m.Some? ==> c.phone == text[m.value.0..m.value.1]
    ensures c.email == "" || IsEmailShaped(c.email)
    ensures c.phone == "" || CountDigits(c.phone) >= 10
    ensures NoSpace(c.name)
    ensures c.name == "" <==> IsBlank(text)
  {
    EmailFirstMatchShape(text);
    PhoneMatchHasTenDigits(text);
    ExtractNameIsFirstWord(text);
    ExtractNameEmptyIffBlank(text);
    ContactInfo(ExtractName(text), FirstMatch(EmailPattern, text), FirstMatch(PhonePattern, text))
  }

  // ---------------------------------------------------------------------------
  // routing

  /** The PDF type wins; otherwise the DOCX type or a `.docx` name (case-sensitive)
      selects DOCX; anything else is unsupported. */
  function Route(mime: string, fileName: string): (r: Option<FileKind>)
    ensures r == Some(Pdf) <==> mime == PdfMime
    ensures r == Some(Docx) <==> mime != PdfMime && (mime == DocxMime || EndsWith(fileName, ".docx"))
  {
    if mime == PdfMime then Some(Pdf)
    else if mime == DocxMime || EndsWith(fileName, ".docx") then Some(Docx)
    else None
  }

  /** `parseResume`: rejects an unsupported file with the fixed message;
      otherwise returns the routed extractor's text unchanged together with
      the contact fields found in it. */
  function ParseResume(mime: string, fileName: string, pdfText: string, docxText: string): (r: ParseOutcome)
    ensures r.Unsupported? <==> Route(mime, fileName).None?
    ensures r.Unsupported? ==> r.message == UnsupportedMessage
    ensures r.Parsed? ==>
              var text := if Route(mime, fileName) == Some(Pdf) then pdfText else docxText;
              && r.resume.text == text
              && ContactInfo(r.resume.name, r.resume.email, r.resume.phone) == ExtractContactInfo(text)
  {
    match Route(mime, fileName)
    case None => Unsupported(UnsupportedMessage)
    case Some(kind) =>
      var text := if kind == Pdf then pdfText else docxText;
      var c := ExtractContactInfo(text);
      Parsed(ParsedResume(text, c.name, c.email, c.phone))
  }

  /** Routing edge cases: a PDF type wins over a `.docx` name, and the name
      test is case-sensitive, so an upper-case extension with an unknown
      type is rejected. */
  lemma RouteEdgeCases()
    ensures Route(PdfMime, "cv.docx") == Some(Pdf)
    ensures Route("", "cv.docx") == Some(Docx)
    ensures Route("", "CV.DOCX") == None
    ensures ParseResume("", "CV.DOCX", "a", "b") == Unsupported(UnsupportedMessage)
  {
    assert "cv.docx"[2..] == ".docx";
    assert "CV.DOCX"[2..] != ".docx" by { assert "CV.DOCX"[2..][1] == 'D'; }
  }
}
