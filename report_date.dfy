/** The report date each parser reads from the `Tablix2` element, and the
    choice between the two dates. */
module ReportDate {
  import opened Wrappers
  import opened Text
  import opened Xml

  const DateTable := "Tablix2"
  const IssueDateAttr := "Textbox21"
  const IssueDateDelimiter := " till "
  const CompilationDateAttr := "Textbox18"
  const CompilationDateDelimiter := "  "

  /** A date cell is read up to its delimiter, trimmed, and every `-` is
      written as `/`; a missing or empty cell gives the empty date. */
  function ExtractDate(attr: Option<string>, delim: string): string
    requires delim != ""
  {
    match attr
    case None => ""
    case Some(a) =>
      if a == "" then "" else ReplaceChar(Trim(PrefixBefore(a, delim)), '-', '/')
  }

  /** The extracted date has no `-`, is trimmed, is no longer than the
      cell, and is empty for a missing or empty cell. */
  lemma ExtractDateShape(attr: Option<string>, delim: string)
    requires delim != ""
    ensures var r := ExtractDate(attr, delim);
      && '-' !in r
      && IsTrimmed(r)
      && (attr.None? || attr == Some("") ==> r == "")
      && (attr.Some? ==> |r| <= |attr.value|)
  {
    if attr.Some? && attr.value != "" {
      var trimmed := Trim(PrefixBefore(attr.value, delim));
      TrimSpec(PrefixBefore(attr.value, delim));
      var r := ReplaceChar(trimmed, '-', '/');
      assert r != [] ==> r[0] != '-' && r[|r| - 1] != '-';
    }
  }

  /** A cell holding neither the delimiter nor a `-` is only trimmed. */
  lemma ExtractDatePlain(a: string, delim: string)
    requires delim != "" && a != ""
    requires !Contains(a, delim) && '-' !in a
    ensures ExtractDate(Some(a), delim) == Trim(a)
  {
    TrimSpec(a);
    var trimmed := Trim(a);
    assert ReplaceChar(trimmed, '-', '/') == trimmed;
  }

  /** The date cell `attrName` of the document's first `Tablix2` element. */
  function DateFromDocument(d: Document, attrName: string, delim: string): string
    requires delim != ""
  {
    match DocQuery(d, DateTable)
    case None => ""
    case Some(n) => ExtractDate(Attr(n, attrName), delim)
  }

  /** The issue date of the authorization register: the text before " till ". */
  function IssueDate(d: Document): string {
    DateFromDocument(d, IssueDateAttr, IssueDateDelimiter)
  }

  /** The date of the compilation sheet: the text before a double space. */
  function CompilationDate(d: Document): string {
    DateFromDocument(d, CompilationDateAttr, CompilationDateDelimiter)
  }

  /** `compilationData.reportDate || paymentAuthData.issueDate`. */
  function ResolveReportDate(compilationDate: string, issueDate: string): (r: string)
    ensures r == compilationDate || r == issueDate
    ensures r == "" <==> compilationDate == "" && issueDate == ""
  {
    if compilationDate != "" then compilationDate else issueDate
  }

  /** The date of a pair of documents: the compilation sheet's, else the
      register's; it never contains `-` and is trimmed. */
  lemma ReportDateShape(auth: Document, compilation: Document)
    ensures var r := ResolveReportDate(CompilationDate(compilation), IssueDate(auth));
      '-' !in r && IsTrimmed(r)
    ensures CompilationDate(compilation) != "" ==>
      ResolveReportDate(CompilationDate(compilation), IssueDate(auth)) == CompilationDate(compilation)
  {
    DateFromDocumentShape(auth, IssueDateAttr, IssueDateDelimiter);
    DateFromDocumentShape(compilation, CompilationDateAttr, CompilationDateDelimiter);
  }

  lemma DateFromDocumentShape(d: Document, attrName: string, delim: string)
    requires delim != ""
    ensures DocQuery(d, DateTable).None? ==> DateFromDocument(d, attrName, delim) == ""
    ensures '-' !in DateFromDocument(d, attrName, delim) && IsTrimmed(DateFromDocument(d, attrName, delim))
  {
    match DocQuery(d, DateTable)
    case None =>
    case Some(n) => ExtractDateShape(Attr(n, attrName), delim);
  }

  /** The text before " till " in an issue-date range is its start date. */
  lemma IssueRangePrefixExample()
    ensures PrefixBefore("01-04-2024 till 30-04-2024", IssueDateDelimiter) == "01-04-2024"
  {
    var a := "01-04-2024 till 30-04-2024";
    assert OccursAt(a, IssueDateDelimiter, 10);
    forall i | 0 <= i < 10
      ensures !OccursAt(a, IssueDateDelimiter, i)
    {
      assert a[i..i + 6][0] == a[i] != ' ';
    }
    assert IndexOf(a, IssueDateDelimiter) == Some(10);
    assert a[..10] == "01-04-2024";
    assert PrefixBefore(a, IssueDateDelimiter) == a[..10];
  }

  /** A range "01-04-2024 till 30-04-2024" yields "01/04/2024". */
  lemma IssueDateExample()
    ensures ExtractDate(Some("01-04-2024 till 30-04-2024"), IssueDateDelimiter) == "01/04/2024"
  {
    IssueRangePrefixExample();
    StartDateExample();
  }

  /** The start date, trimmed and with its dashes replaced. */
  lemma StartDateExample()
    ensures ReplaceChar(Trim("01-04-2024"), '-', '/') == "01/04/2024"
  {
    TrimSpec("01-04-2024");
  }
}
