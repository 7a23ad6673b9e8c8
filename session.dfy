/** The page state of the ready-made workflow: two file slots, the results
    of the last analysis, the two buttons and the status line, as
    `handleFile`, `checkFilesReady` and `analyzeFiles` update them. */
module Session {
  import opened Wrappers
  import opened Text
  import opened Xml
  import opened Errors
  import opened Reconcile
  import opened Analysis

  /** The `type` argument of `updateStatus`. */
  datatype StatusType = SuccessStatus | ErrorStatus | ProcessingStatus | InfoStatus

  /** The status line: its text and its colouring. */
  datatype Status = Status(message: string, statusType: StatusType)

  /** A chosen file: its name and the document it parses to. */
  datatype XmlFile = XmlFile(name: string, document: Document)

  const XmlExtension := "xml"
  const SelectedPrefix := "Selected: "
  const InvalidFileType := "Error: Invalid file type. Please select XML."
  const FilesReady := "Files ready. Click Analyze."
  const WaitingForFiles := "Waiting for both files..."
  const BothFilesRequired := "Error: Both files are required."
  const Processing := "Processing files..."
  const AnalysisComplete := "Analysis complete."
  const ErrorPrefix := "Error: "

  /** `name.split('.').pop()`: the text after the last dot, or the whole
      name when it has no dot. */
  function Extension(name: string): string
    decreases |name|
  {
    if name == [] || name[|name| - 1] == '.' then []
    else Extension(name[..|name| - 1]) + [name[|name| - 1]]
  }

  /** The extension is the longest dot-free tail of the name: a dot stands
      right before it unless it is the whole name. */
  lemma {:induction false} ExtensionSpec(name: string)
    ensures var ext := Extension(name);
      && |ext| <= |name|
      && ext == name[|name| - |ext|..]
      && '.' !in ext
      && (|ext| < |name| ==> name[|name| - |ext| - 1] == '.')
    decreases |name|
  {
    if name != [] && name[|name| - 1] != '.' {
      var init := name[..|name| - 1];
      ExtensionSpec(init);
      var ext := Extension(init);
      assert init[|init| - |ext|..] + [name[|name| - 1]] == name[|name| - |ext| - 1..];
    }
  }

  /** The test of `handleFile`: the extension, lower-cased, is `xml`. */
  predicate IsXmlName(name: string) {
    ToLower(Extension(name)) == XmlExtension
  }

  /** Upper-case extensions pass, and a name without a dot is its own
      extension. */
  lemma XmlNamesAccepted()
    ensures IsXmlName("register.XML")
    ensures IsXmlName("xml")
  {
    assert Extension("register.XML") == "XML" by {
      assert "register.XML"[..|"register.XML"| - 1] == "register.XM";
      assert "register.XM"[..|"register.XM"| - 1] == "register.X";
      assert "register.X"[..|"register.X"| - 1] == "register.";
    }
    assert Extension("xml") == "xml" by {
      assert "xml"[..2] == "xm" && "xm"[..1] == "x" && "x"[..0] == "";
    }
  }

  /** Only the last extension counts, and a name without a dot is read
      as a whole. */
  lemma OtherNamesRejected()
    ensures !IsXmlName("register.xml.txt")
    ensures !IsXmlName("register")
  {
    assert Extension("register.xml.txt") == "txt" by {
      assert "register.xml.txt"[..|"register.xml.txt"| - 1] == "register.xml.tx";
      assert "register.xml.tx"[..|"register.xml.tx"| - 1] == "register.xml.t";
      assert "register.xml.t"[..|"register.xml.t"| - 1] == "register.xml.";
    }
    assert ToLower("txt")[0] == 't';
    ExtensionSpec("register");
    assert '.' !in "register";
  }

  class Session {
    var file1: Option<XmlFile>
    var file2: Option<XmlFile>
    var filePath1: string
    var filePath2: string
    var lastResults: Option<Reconciled>
    var analyzeDisabled: bool
    var pdfDisabled: bool
    var status: Status

    /** The page between complete analysis runs: Analyze is enabled
        exactly when both slots are filled; the PDF button only when there
        are results; and the results are those of the two files now
        chosen. A file chosen while a run waits can leave this state (see
        `ReplaceFirstDuringRun`). */
    ghost predicate Valid()
      reads this
    {
      && (analyzeDisabled <==> !(file1.Some? && file2.Some?))
      && (!pdfDisabled ==> lastResults.Some?)
      && (lastResults.Some? ==>
            file1.Some? && file2.Some?
            && AnalysisSpec(file1.value.document, file2.value.document) == Success(lastResults.value))
    }

    /** The page as it loads: no files, no results, both buttons disabled. */
    constructor()
      ensures Valid()
      ensures file1 == None && file2 == None && lastResults == None
      ensures analyzeDisabled && pdfDisabled
      ensures filePath1 == "" && filePath2 == "" && status == Status("", InfoStatus)
    {
      file1, file2 := None, None;
      filePath1, filePath2 := "", "";
      lastResults := None;
      analyzeDisabled, pdfDisabled := true, true;
      status := Status("", InfoStatus);
    }

    /** `checkFilesReady`. */
    method CheckFilesReady()
      modifies this
      ensures analyzeDisabled == !(file1.Some? && file2.Some?)
      ensures status == if file1.Some? && file2.Some? then Status(FilesReady, SuccessStatus)
                        else Status(WaitingForFiles, InfoStatus)
      ensures file1 == old(file1) && file2 == old(file2) && lastResults == old(lastResults)
      ensures filePath1 == old(filePath1) && filePath2 == old(filePath2) && pdfDisabled == old(pdfDisabled)
    {
      if file1.Some? && file2.Some? {
        analyzeDisabled := false;
        status := Status(FilesReady, SuccessStatus);
      } else {
        analyzeDisabled := true;
        status := Status(WaitingForFiles, InfoStatus);
      }
    }

    /** `handleFile`: a file whose extension is not `xml` only sets the
        error status; otherwise it fills slot 1, or slot 2 for any other
        slot number, and drops the results of the last analysis. */
    method HandleFile(file: XmlFile, slot: int)
      modifies this
      ensures IsXmlName(file.name) || old(Valid()) ==> Valid()
      ensures !IsXmlName(file.name) ==>
        && status == Status(InvalidFileType, ErrorStatus)
        && file1 == old(file1) && file2 == old(file2) && lastResults == old(lastResults)
        && filePath1 == old(filePath1) && filePath2 == old(filePath2)
        && analyzeDisabled == old(analyzeDisabled) && pdfDisabled == old(pdfDisabled)
      ensures IsXmlName(file.name) ==>
        && file1 == (if slot == 1 then Some(file) else old(file1))
        && file2 == (if slot == 1 then old(file2) else Some(file))
        && filePath1 == (if slot == 1 then SelectedPrefix + file.name else old(filePath1))
        && filePath2 == (if slot == 1 then old(filePath2) else SelectedPrefix + file.name)
        && lastResults == None && pdfDisabled
        && analyzeDisabled == !(file1.Some? && file2.Some?)
        && status == if file1.Some? && file2.Some? then Status(FilesReady, SuccessStatus)
                     else Status(WaitingForFiles, InfoStatus)
    {
      if ToLower(Extension(file.name)) != XmlExtension {
        status := Status(InvalidFileType, ErrorStatus);
        return;
      }
      if slot == 1 {
        file1 := Some(file);
        filePath1 := SelectedPrefix + file.name;
      } else {
        file2 := Some(file);
        filePath2 := SelectedPrefix + file.name;
      }
      lastResults := None;
      pdfDisabled := true;
      CheckFilesReady();
    }

    /** `analyzeFiles` up to its first `await`: without both files only the
        error status is set; otherwise the status says it is processing,
        both buttons are disabled and the run holds the first file, whose
        text it is now reading. */
    method BeginAnalysis() returns (first: Option<Document>)
      modifies this
      ensures file1 == old(file1) && file2 == old(file2) && lastResults == old(lastResults)
      ensures filePath1 == old(filePath1) && filePath2 == old(filePath2)
      ensures old(file1).None? || old(file2).None? ==>
        && first == None && status == Status(BothFilesRequired, ErrorStatus)
        && analyzeDisabled == old(analyzeDisabled) && pdfDisabled == old(pdfDisabled)
      ensures old(file1).Some? && old(file2).Some? ==>
        && first == Some(old(file1).value.document)
        && status == Status(Processing, ProcessingStatus) && analyzeDisabled && pdfDisabled
    {
      if file1.None? || file2.None? {
        status := Status(BothFilesRequired, ErrorStatus);
        return None;
      }
      status := Status(Processing, ProcessingStatus);
      analyzeDisabled := true;
      pdfDisabled := true;
      first := Some(file1.value.document);
    }

    /** `analyzeFiles` after its first `await`: the second file is read from
        slot 2 as it is now, which is not necessarily the file chosen when
        the run began. */
    method ReadSecondFile() returns (second: Document)
      requires file2.Some?
      ensures second == file2.value.document
    {
      second := file2.value.document;
    }

    /** The end of `analyzeFiles` once the analysis has an outcome: a
        success stores the results and enables the PDF button, a failure
        reports the error's message and leaves the results and the PDF
        button alone, and Analyze is enabled again in either case. */
    method ShowOutcome(r: Result<Reconciled, AnalysisError>)
      modifies this
      ensures file1 == old(file1) && file2 == old(file2)
      ensures filePath1 == old(filePath1) && filePath2 == old(filePath2)
      ensures !analyzeDisabled
      ensures r.Success? ==>
        lastResults == Some(r.value) && !pdfDisabled && status == Status(AnalysisComplete, SuccessStatus)
      ensures r.Failure? ==>
        && lastResults == old(lastResults) && pdfDisabled == old(pdfDisabled)
        && status == Status(ErrorPrefix + Message(r.error), ErrorStatus)
    {
      if r.Success? {
        lastResults := Some(r.value);
        status := Status(AnalysisComplete, SuccessStatus);
        pdfDisabled := false;
      } else {
        status := Status(ErrorPrefix + Message(r.error), ErrorStatus);
      }
      analyzeDisabled := false;
    }

    /** `analyzeFiles` after its second `await`: the two documents are
        analysed and the outcome is shown. */
    method FinishAnalysis(first: Document, second: Document)
      modifies this
      ensures file1 == old(file1) && file2 == old(file2)
      ensures filePath1 == old(filePath1) && filePath2 == old(filePath2)
      ensures !analyzeDisabled
      ensures var r := AnalysisSpec(first, second);
        && (r.Success? ==>
              lastResults == Some(r.value) && !pdfDisabled && status == Status(AnalysisComplete, SuccessStatus))
        && (r.Failure? ==>
              lastResults == old(lastResults) && pdfDisabled == old(pdfDisabled)
              && status == Status(ErrorPrefix + Message(r.error), ErrorStatus))
    {
      var r := AnalyzeDocuments(first, second);
      ShowOutcome(r);
    }

    /** `analyzeFiles` when no file is chosen while it waits: its three
        steps one after the other. Without both files only the error status
        is set; otherwise the documents are analysed, a success stores the
        results and enables the PDF button, a failure reports the error's
        message, Analyze is enabled again in either case, and the page
        invariant holds again. */
    method AnalyzeFiles()
      requires Valid()
      modifies this
      ensures Valid()
      ensures file1 == old(file1) && file2 == old(file2)
      ensures filePath1 == old(filePath1) && filePath2 == old(filePath2)
      ensures old(file1).None? || old(file2).None? ==>
        && status == Status(BothFilesRequired, ErrorStatus)
        && lastResults == old(lastResults)
        && analyzeDisabled == old(analyzeDisabled) && pdfDisabled == old(pdfDisabled)
      ensures old(file1).Some? && old(file2).Some? ==>
        var r := AnalysisSpec(old(file1).value.document, old(file2).value.document);
        && !analyzeDisabled
        && (r.Success? ==>
              lastResults == Some(r.value) && !pdfDisabled && status == Status(AnalysisComplete, SuccessStatus))
        && (r.Failure? ==>
              lastResults == old(lastResults) && pdfDisabled
              && status == Status(ErrorPrefix + Message(r.error), ErrorStatus))
    {
      var first := BeginAnalysis();
      if first.None? {
        return;
      }
      var second := ReadSecondFile();
      FinishAnalysis(first.value, second);
    }

    /** A new first file chosen while a run reads the second one: choosing
        it enables Analyze again in the middle of the run, and a successful
        run still stores the results of the file it began with and enables
        the PDF button, although that file is no longer chosen. */
    method ReplaceFirstDuringRun(replacement: XmlFile) returns (reenabled: bool)
      requires file1.Some? && file2.Some? && IsXmlName(replacement.name)
      modifies this
      ensures reenabled
      ensures file1 == Some(replacement) && file2 == old(file2)
      ensures var r := AnalysisSpec(old(file1).value.document, old(file2).value.document);
        r.Success? ==> lastResults == Some(r.value) && !pdfDisabled
    {
      var first := BeginAnalysis();
      HandleFile(replacement, 1);
      reenabled := !analyzeDisabled;
      var second := ReadSecondFile();
      FinishAnalysis(first.value, second);
    }
  }
}
